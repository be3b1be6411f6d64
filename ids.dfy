/** Cell ids: the "x_y" string keys of CellService.cells, built with string
    concatenation when the grid is initialised and taken apart again with
    indexOf, substring and parseInt when a generation is computed. */
module Ids {

  datatype Option<T> = None | Some(value: T)

  predicate IsDigit(c: char) {
    '0' <= c <= '9'
  }

  predicate AllDigits(s: string) {
    forall i :: 0 <= i < |s| ==> IsDigit(s[i])
  }

  function DigitChar(d: nat): (c: char)
    requires d < 10
    ensures IsDigit(c) && c as int - '0' as int == d
  {
    ('0' as int + d) as char
  }

  /** The decimal text of a non-negative integer, as JavaScript writes a
      number when it is concatenated to a string: no sign, no leading zero. */
  function NatStr(n: nat): (s: string)
    ensures |s| > 0 && AllDigits(s)
    decreases n
  {
    if n < 10 then [DigitChar(n)] else NatStr(n / 10) + [DigitChar(n % 10)]
  }

  /** The value of a string of decimal digits, most significant first. */
  function DigitsValue(s: string): nat
    requires AllDigits(s)
  {
    if s == [] then 0 else 10 * DigitsValue(s[..|s| - 1]) + (s[|s| - 1] as int - '0' as int)
  }

  /** The length of the longest prefix of `s` made of decimal digits. */
  function DigitRun(s: string): (n: nat)
    ensures n <= |s|
    ensures AllDigits(s[..n])
    ensures n < |s| ==> !IsDigit(s[n])
  {
    if s == [] || !IsDigit(s[0]) then 0
    else
      var n := 1 + DigitRun(s[1..]);
      assert s[..n] == [s[0]] + s[1..][..n - 1];
      n
  }

  /** parseInt on text without leading white space: an optional sign and the
      longest run of decimal digits after it; None stands for NaN. */
  function ParseInt(s: string): (r: Option<int>)
    ensures r.Some? <==> DigitRun(if |s| > 0 && s[0] in "+-" then s[1..] else s) > 0
  {
    if |s| > 0 && s[0] in "+-" then
      match ParseDigits(s[1..])
      case None => None
      case Some(n) =>
        var v: int := n;
        Some(if s[0] == '-' then -v else v)
    else
      match ParseDigits(s)
      case None => None
      case Some(n) => Some(n)
  }

  function ParseDigits(s: string): (r: Option<nat>)
    ensures r.Some? <==> DigitRun(s) > 0
  {
    var n := DigitRun(s);
    if n == 0 then None else Some(DigitsValue(s[..n]))
  }

  /** String.prototype.indexOf for one character: the first position of `c`
      in `s`, or -1 when there is none. */
  function IndexOf(s: string, c: char): (r: int)
    ensures -1 <= r < |s|
    ensures r == -1 <==> c !in s
    ensures r >= 0 ==> s[r] == c && c !in s[..r]
  {
    if s == [] then -1
    else if s[0] == c then 0
    else
      var r := IndexOf(s[1..], c);
      if r == -1 then -1
      else
        assert s[..r + 1] == [s[0]] + s[1..][..r];
        r + 1
  }

  function Clamp(i: int, len: nat): (r: nat)
    ensures r <= len
    ensures 0 <= i <= len ==> r == i
  {
    if i < 0 then 0 else if i > len then len else i
  }

  /** String.prototype.substring: both ends are clamped to [0, |s|] and
      swapped when the start lies after the end. */
  function Substring(s: string, start: int, end: int): (r: string)
    ensures 0 <= start <= end <= |s| ==> r == s[start..end]
    ensures 0 <= start <= |s| <= end ==> r == s[start..]
    ensures end <= 0 <= start <= |s| ==> r == s[..start]
    ensures |r| <= |s|
  {
    var a := Clamp(start, |s|);
    var b := Clamp(end, |s|);
    if a <= b then s[a..b] else s[b..a]
  }

  /** The id of the cell in column x and row y: x + "_" + y. */
  function Id(x: nat, y: nat): string {
    NatStr(x) + "_" + NatStr(y)
  }

  /** What playTick reads back from an id: parseInt of the text before the
      first "_" and parseInt of the text after it. A key without "_" reads
      as NaN for the column and as the whole key for the row. */
  function Decode(id: string): (r: (Option<int>, Option<int>))
    ensures '_' !in id ==> r == (None, ParseInt(id))
    ensures '_' in id ==>
      var sep := IndexOf(id, '_');
      r == (ParseInt(id[..sep]), ParseInt(id[sep + 1..]))
  {
    var sep := IndexOf(id, '_');
    (ParseInt(Substring(id, 0, sep)), ParseInt(Substring(id, sep + 1, |id|)))
  }

  lemma {:induction false} DigitsValueNatStr(n: nat)
    ensures DigitsValue(NatStr(n)) == n
    decreases n
  {
    var s := NatStr(n);
    if n >= 10 {
      DigitsValueNatStr(n / 10);
      assert s[..|s| - 1] == NatStr(n / 10);
    }
  }

  /** parseInt gives back every number written by NatStr. */
  lemma ParseNatStr(n: nat)
    ensures ParseInt(NatStr(n)) == Some(n)
  {
    var s := NatStr(n);
    assert s[0] !in "+-";
    assert DigitRun(s) == |s|;
    assert s[..|s|] == s;
    DigitsValueNatStr(n);
  }

  /** Decoding an id built from (x, y) gives (x, y) back: indexOf finds the
      separator right after the digits of x, the two substrings are the
      digits of x and of y, and parseInt reads x and y off them. */
  lemma DecodeId(x: nat, y: nat)
    ensures IndexOf(Id(x, y), '_') == |NatStr(x)|
    ensures Decode(Id(x, y)) == (Some(x as int), Some(y as int))
  {
    var xs, ys := NatStr(x), NatStr(y);
    var id := Id(x, y);
    assert id[|xs|] == '_';
    assert '_' !in xs;
    assert id[..|xs|] == xs;
    var sep := IndexOf(id, '_');
    assert sep == |xs|;
    assert id[|xs| + 1..] == ys;
    assert Substring(id, 0, sep) == xs;
    assert Substring(id, sep + 1, |id|) == ys;
    ParseNatStr(x);
    ParseNatStr(y);
  }

  /** Different cells have different ids. */
  lemma IdInjective(x: nat, y: nat, x': nat, y': nat)
    requires Id(x, y) == Id(x', y')
    ensures x == x' && y == y'
  {
    DecodeId(x, y);
    DecodeId(x', y');
  }
}
