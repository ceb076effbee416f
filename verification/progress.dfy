/** The progress line of `update_progress(current, total, folder)`
    (update_comfyui.py:31-41): a percentage and a 50-cell bar, computed with
    `int(a * b / total)`, written after a carriage return. */
module Progress {
  import opened Text

  /** The number of cells in the bar. */
  const Width: int := 50

  /** The field the folder name is left-aligned in. */
  const FolderField: int := 40

  function Abs(x: int): nat {
    if x < 0 then -x else x
  }

  /** `int(a / b)` of the exact quotient: division truncated toward zero,
      as Python's `int()` truncates (unlike Dafny's Euclidean `/`). */
  function TruncDiv(a: int, b: int): (q: int)
    requires b != 0
    ensures Abs(q) * Abs(b) <= Abs(a) < Abs(q) * Abs(b) + Abs(b)
    ensures q > 0 ==> (a > 0) == (b > 0)
    ensures q < 0 ==> (a > 0) != (b > 0)
  {
    var m := Abs(a) / Abs(b);
    FloorDivBounds(Abs(a), Abs(b));
    if (a < 0) == (b < 0) then m else -m
  }

  /** Dafny's `/` on naturals rounds down. */
  lemma FloorDivBounds(x: nat, y: nat)
    requires y > 0
    ensures (x / y) * y <= x < (x / y) * y + y
  {
  }

  /** `int(current * 100 / total)`. */
  function Percent(current: int, total: int): int
    requires total != 0
  {
    TruncDiv(current * 100, total)
  }

  /** `int(width * current / total)`: the number of filled cells. */
  function Completed(current: int, total: int): int
    requires total != 0
  {
    TruncDiv(Width * current, total)
  }

  /** The text between the brackets: the filled cells, then spaces up to the
      bar width (Python's `" " * n` is empty for negative `n`). */
  function BarCells(current: int, total: int): string
    requires total != 0
  {
    var c := Completed(current, total);
    Repeat('=', c) + Repeat(' ', Width - c)
  }

  /** `f"{percent:3d}"`: the percentage right-aligned in three characters. */
  function PercentField(current: int, total: int): string
    requires total != 0
  {
    PadLeft(IntToString(Percent(current, total)), 3)
  }

  /** The bar and percentage framed as `head[bar] field%`. */
  function Frame(head: string, bar: string, field: string): string {
    head + "[" + bar + "] " + field + "%"
  }

  /** Everything `update_progress` writes, in order: a carriage return,
      the padded folder name, the bar and the percentage. */
  function ProgressLine(current: int, total: int, folder: string): string
    requires total != 0
  {
    Frame("\rUpdating: " + PadRight(folder, FolderField), BarCells(current, total), PercentField(current, total))
  }

  /** For non-negative operands truncating division is the floor. */
  lemma TruncDivNonNegative(a: int, b: int)
    requires a >= 0 && b > 0
    ensures 0 <= TruncDiv(a, b)
    ensures TruncDiv(a, b) * b <= a < TruncDiv(a, b) * b + b
  {
  }

  /** Multiplying by a non-negative factor preserves `<=`. */
  lemma MulMonotone(x: int, y: int, b: int)
    requires b >= 0 && x <= y
    ensures x * b <= y * b
  {
    assert y * b - x * b == (y - x) * b;
  }

  /** If `q * b <= a < q * b + b` for positive `b`, then `q` is the
      quotient: the bound pins the quotient down. */
  lemma QuotientUnique(a: int, b: int, q: int)
    requires a >= 0 && b > 0
    requires q * b <= a < q * b + b
    ensures TruncDiv(a, b) == q
  {
    var t := TruncDiv(a, b);
    TruncDivNonNegative(a, b);
    if t < q {
      MulMonotone(t + 1, q, b);
      assert false;
    } else if t > q {
      MulMonotone(q + 1, t, b);
      assert false;
    }
  }

  /** For `total > 0` and `0 <= current <= total`: the percentage is within
      0..100, the filled cells within 0..50, an empty run shows 0% and no
      cell, and a finished run shows 100% and every cell. */
  lemma ProgressBounds(current: int, total: int)
    requires total > 0 && 0 <= current <= total
    ensures 0 <= Percent(current, total) <= 100
    ensures 0 <= Completed(current, total) <= Width
    ensures current == 0 ==> Percent(current, total) == 0 && Completed(current, total) == 0
    ensures current == total ==> Percent(current, total) == 100 && Completed(current, total) == Width
  {
    var p, c := Percent(current, total), Completed(current, total);
    TruncDivNonNegative(current * 100, total);
    TruncDivNonNegative(Width * current, total);
    if p > 100 {
      MulMonotone(101, p, total);
      assert false;
    }
    if c > Width {
      MulMonotone(Width + 1, c, total);
      assert false;
    }
    if current == 0 {
      QuotientUnique(0, total, 0);
    }
    if current == total {
      QuotientUnique(current * 100, total, 100);
      QuotientUnique(Width * current, total, Width);
    }
  }

  /** The bar never shrinks as `current` grows. */
  lemma CompletedMonotonic(c1: int, c2: int, total: int)
    requires total > 0 && 0 <= c1 <= c2
    ensures Completed(c1, total) <= Completed(c2, total)
  {
    var q1, q2 := Completed(c1, total), Completed(c2, total);
    TruncDivNonNegative(Width * c1, total);
    TruncDivNonNegative(Width * c2, total);
    if q1 > q2 {
      MulMonotone(q2 + 1, q1, total);
      assert false;
    }
  }

  /** Each bar cell is worth two percent: the filled cells are exactly half
      the printed percentage, rounded down. */
  lemma CompletedIsHalfPercent(current: int, total: int)
    requires total > 0 && current >= 0
    ensures Completed(current, total) == Percent(current, total) / 2
  {
    var p := Percent(current, total);
    TruncDivNonNegative(current * 100, total);
    var k := p / 2;
    assert p == 2 * k || p == 2 * k + 1;
    assert 2 * k * total <= p * total;
    assert p * total + total <= 2 * k * total + 2 * total;
    QuotientUnique(Width * current, total, k);
  }

  /** The bar is `Completed` '=' cells followed by spaces up to `Width`
      cells: exactly `Width` cells while `current <= total`; past the end
      it is all '=' and at least `Width` long, as the padding count turns
      negative. */
  lemma BarShape(current: int, total: int)
    requires total > 0 && current >= 0
    ensures var c := Completed(current, total);
      && |BarCells(current, total)| == (if c > Width then c else Width)
      && (forall i :: 0 <= i < |BarCells(current, total)| ==>
            BarCells(current, total)[i] == (if i < c then '=' else ' '))
    ensures current <= total ==> |BarCells(current, total)| == Width
    ensures current > total ==> Completed(current, total) >= Width
  {
    TruncDivNonNegative(Width * current, total);
    if current <= total {
      ProgressBounds(current, total);
    } else {
      ProgressBounds(total, total);
      CompletedMonotonic(total, current, total);
    }
  }

  /** Stripping the padding spaces off a field that does not itself start
      with a space gives the field back. */
  lemma {:induction false} TrimLeftPadding(n: int, s: string)
    requires s == [] || !IsSpace(s[0])
    ensures TrimLeft(Repeat(' ', n) + s) == s
    decreases n
  {
    if n > 0 {
      var t := Repeat(' ', n) + s;
      assert t[0] == ' ';
      assert t[1..] == Repeat(' ', n - 1) + s;
      TrimLeftPadding(n - 1, s);
    } else {
      assert Repeat(' ', n) + s == s;
    }
  }

  /** Within range the percentage field is exactly three characters, and
      with its padding stripped it reads back as the percentage. */
  lemma PercentFieldReadsBack(current: int, total: int)
    requires total > 0 && 0 <= current <= total
    ensures |PercentField(current, total)| == 3
    ensures AllDigits(TrimLeft(PercentField(current, total)))
    ensures ParseDigits(TrimLeft(PercentField(current, total))) == Percent(current, total)
  {
    var p := Percent(current, total);
    ProgressBounds(current, total);
    NatToStringWidth(p);
    ParseNatToString(p);
    var digits := NatToString(p);
    assert IntToString(p) == digits;
    assert !IsSpace(digits[0]);
    TrimLeftPadding(3 - |digits|, digits);
  }

  /** Where each part sits in a framed line. */
  lemma Framing(head: string, bar: string, field: string)
    ensures var line := Frame(head, bar, field);
      var k := |head|;
      && |line| == k + |bar| + |field| + 4
      && line[..k] == head
      && line[k] == '[' && line[k + 1..k + 1 + |bar|] == bar && line[k + 1 + |bar|] == ']'
      && line[k + 2 + |bar|] == ' '
      && line[k + |bar| + 3..k + |bar| + 3 + |field|] == field
      && line[|line| - 1] == '%'
  {
    var line := head + "[" + bar + "] " + field + "%";
    assert line == head + ("[" + bar + "] " + field + "%");
  }

  /** The layout of the written line, for `total > 0` and `0 <= current <= total`:
      the folder name padded with spaces to at least 40 characters, then '['
      and exactly `Width` bar cells and "] ", then the three-character
      percentage field, then '%'. */
  lemma LineLayout(current: int, total: int, folder: string)
    requires total > 0 && 0 <= current <= total
    ensures var line := ProgressLine(current, total, folder);
      var k := 11 + (if |folder| >= FolderField then |folder| else FolderField);
      && |line| == k + Width + 7
      && line[..11] == "\rUpdating: "
      && line[11..11 + |folder|] == folder
      && line[11..k] == PadRight(folder, FolderField)
      && line[k] == '[' && line[k + 1 + Width] == ']'
      && line[k + 1..k + 1 + Width] == BarCells(current, total)
      && line[k + Width + 2] == ' '
      && line[k + Width + 3..k + Width + 6] == PercentField(current, total)
      && line[|line| - 1] == '%'
  {
    BarShape(current, total);
    PercentFieldReadsBack(current, total);
    FrameLayout(folder, BarCells(current, total), PercentField(current, total));
  }

  /** The layout of a line framing a bar of `Width` cells and a
      three-character field after the padded folder name. */
  lemma FrameLayout(folder: string, bar: string, field: string)
    requires |bar| == Width && |field| == 3
    ensures var line := Frame("\rUpdating: " + PadRight(folder, FolderField), bar, field);
      var k := 11 + (if |folder| >= FolderField then |folder| else FolderField);
      && |line| == k + Width + 7
      && line[..11] == "\rUpdating: "
      && line[11..11 + |folder|] == folder
      && line[11..k] == PadRight(folder, FolderField)
      && line[k] == '[' && line[k + 1 + Width] == ']'
      && line[k + 1..k + 1 + Width] == bar
      && line[k + Width + 2] == ' '
      && line[k + Width + 3..k + Width + 6] == field
      && line[|line| - 1] == '%'
  {
    var pad := PadRight(folder, FolderField);
    var head := "\rUpdating: " + pad;
    Framing(head, bar, field);
    var line := Frame(head, bar, field);
    assert line[..11] == head[..11] == "\rUpdating: ";
    assert line[11..11 + |folder|] == head[11..11 + |folder|] == pad[..|folder|] == folder;
    assert line[11..|head|] == head[11..] == pad;
  }
}
