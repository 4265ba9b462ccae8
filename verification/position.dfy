/** A cell of the 5x5 garden grid, and its `"x,y"` map key. */
module Positions {
  import opened Results
  import opened Strings

  /** Both coordinates lie in 0..4 (the position schema). */
  const GridSize: int := 5

  datatype Position = Position(x: int, y: int)

  predicate InGrid(x: int, y: int) {
    0 <= x < GridSize && 0 <= y < GridSize
  }

  /** `Position.create`: validated against the schema. Coordinates are
      integers here; the schema's rejection of fractional numbers is
      outside the model. */
  function Create(x: int, y: int): (r: Result<Position>)
    ensures r.Ok? <==> InGrid(x, y)
    ensures r.Ok? ==> r.value.x == x && r.value.y == y
    ensures r.Err? ==> r.error == InvalidPosition
  {
    if 0 <= x <= 4 && 0 <= y <= 4 then Ok(Position(x, y)) else Err(InvalidPosition)
  }

  /** `Position.fromData`: no validation at all. */
  function FromData(x: int, y: int): (r: Position)
    ensures r.x == x && r.y == y
  {
    Position(x, y)
  }

  /** Stored data that `create` would reject is still accepted. */
  lemma FromDataBypassesBounds()
    ensures Create(5, 0).Err? && FromData(5, 0) == Position(5, 0)
  {
  }

  /** `equals` compares both coordinates. */
  function Equals(p: Position, q: Position): (r: bool)
    ensures r <==> p == q
  {
    p.x == q.x && p.y == q.y
  }

  function Abs(n: int): nat {
    if n < 0 then -n else n
  }

  /** `isAdjacent`: one step apart horizontally, vertically or
      diagonally. */
  function IsAdjacent(p: Position, q: Position): (r: bool)
    ensures r <==> p != q && Abs(p.x - q.x) <= 1 && Abs(p.y - q.y) <= 1
  {
    var dx := Abs(p.x - q.x);
    var dy := Abs(p.y - q.y);
    (dx == 1 && dy == 0) || (dx == 0 && dy == 1) || (dx == 1 && dy == 1)
  }

  /** Adjacency is symmetric and irreflexive, and includes diagonals. */
  lemma AdjacencyShape(p: Position, q: Position)
    ensures IsAdjacent(p, q) == IsAdjacent(q, p)
    ensures !IsAdjacent(p, p)
    ensures IsAdjacent(p, Position(p.x + 1, p.y + 1))
    ensures !IsAdjacent(p, Position(p.x + 2, p.y))
  {
  }

  // ---------------------------------------------------------------------
  // toKey

  function DigitChar(d: int): char
    requires 0 <= d < 10
  {
    ('0' as int + d) as char
  }

  /** The decimal digits of a natural number, no leading zeros. */
  function Digits(n: nat): (r: string)
    ensures |r| > 0
    ensures forall i :: 0 <= i < |r| ==> IsDigit(r[i])
  {
    if n < 10 then [DigitChar(n)] else Digits(n / 10) + [DigitChar(n % 10)]
  }

  function DigitValue(c: char): nat
    requires IsDigit(c)
  {
    assert '0' as int <= c as int;
    c as int - '0' as int
  }

  /** The value of a string of decimal digits. */
  function DigitsValue(s: string): nat
    requires forall i :: 0 <= i < |s| ==> IsDigit(s[i])
  {
    if |s| == 0 then 0
    else DigitsValue(s[..|s| - 1]) * 10 + DigitValue(s[|s| - 1])
  }

  /** Only decimal digits. */
  predicate AllDigits(s: string) {
    forall i :: 0 <= i < |s| ==> IsDigit(s[i])
  }

  lemma {:induction false} DigitsValueOfDigits(n: nat)
    ensures DigitsValue(Digits(n)) == n
  {
    if n >= 10 {
      DigitsValueOfDigits(n / 10);
      assert Digits(n)[..|Digits(n)| - 1] == Digits(n / 10);
    }
  }

  /** How a template literal writes an integer. */
  function IntText(n: int): (r: string)
    ensures ',' !in r
  {
    if n < 0 then "-" + Digits(-n) else Digits(n)
  }

  /** Reads back what `IntText` wrote. */
  function ParseInt(s: string): Option<int> {
    if |s| > 0 && s[0] == '-' && AllDigits(s[1..]) then
      var v: int := DigitsValue(s[1..]);
      Some(-v)
    else if AllDigits(s) then Some(DigitsValue(s))
    else None
  }

  lemma ParseIntText(n: int)
    ensures ParseInt(IntText(n)) == Some(n)
  {
    if n < 0 {
      var t := IntText(n);
      assert t[1..] == Digits(-n);
      assert AllDigits(t[1..]);
      DigitsValueOfDigits(-n);
    } else {
      var t := IntText(n);
      assert AllDigits(t);
      assert t[0] != '-' by {
        assert IsDigit(t[0]);
      }
      DigitsValueOfDigits(n);
    }
  }

  /** `toKey`: `${x},${y}`. */
  function ToKey(p: Position): (r: string)
    ensures ',' in r
    ensures ParseKey(r) == Some(p)
  {
    var a := IntText(p.x);
    var b := IntText(p.y);
    assert (a + [','] + b)[|a|] == ',';
    SplitAppend(a, b, ',');
    SplitNoSep(a, ',');
    assert Split(a + [','] + b, ',') == [a, b];
    ParseIntText(p.x);
    ParseIntText(p.y);
    a + [','] + b
  }

  /** Reads a position back from its key. */
  function ParseKey(key: string): Option<Position> {
    var parts := Split(key, ',');
    if |parts| != 2 then None
    else
      match (ParseInt(parts[0]), ParseInt(parts[1]))
      case (Some(x), Some(y)) => Some(Position(x, y))
      case _ => None
  }

  /** The key of a position reads back as that position. */
  lemma ParseKeyOfKey(p: Position)
    ensures ParseKey(ToKey(p)) == Some(p)
  {
  }

  /** Different positions have different keys, so keying the plot map by
      `toKey` is keying it by position. */
  lemma ToKeyInjective(p: Position, q: Position)
    ensures ToKey(p) == ToKey(q) <==> p == q
  {
    ParseKeyOfKey(p);
    ParseKeyOfKey(q);
  }
}
