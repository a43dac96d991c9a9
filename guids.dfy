/**
 * System.Guid as far as this model needs it: a value with equality, its canonical
 * text form (`Guid.ToString()`, the "D" format) and `Guid.Parse` for the "D" and "N" formats.
 */
module Guids {
  import opened Wrappers

  /** One hexadecimal digit. */
  type Nibble = x: int | 0 <= x < 16

  /** A Guid is its 32 hexadecimal digits, in the order in which its "D" text form shows them. */
  type Guid = s: seq<Nibble> | |s| == 32 witness Zeros(32)

  function Zeros(n: nat): (s: seq<Nibble>)
    ensures |s| == n
  {
    if n == 0 then [] else [0] + Zeros(n - 1)
  }

  /** `Guid.Empty`, the value of an unset Guid property. */
  const Empty: Guid := Zeros(32)

  predicate IsHexChar(c: char)
  {
    '0' <= c <= '9' || 'a' <= c <= 'f' || 'A' <= c <= 'F'
  }

  /** The lower-case digit `ToString` writes. */
  function HexChar(d: Nibble): (c: char)
    ensures IsHexChar(c)
  {
    if d < 10 then ('0' as int + d) as char else ('a' as int + d - 10) as char
  }

  /** The value of a hexadecimal digit of either case. */
  function HexValue(c: char): (r: Option<Nibble>)
    ensures r.Some? <==> IsHexChar(c)
  {
    if '0' <= c <= '9' then Some(c as int - '0' as int)
    else if 'a' <= c <= 'f' then Some(c as int - 'a' as int + 10)
    else if 'A' <= c <= 'F' then Some(c as int - 'A' as int + 10)
    else None
  }

  lemma HexValueOfHexChar(d: Nibble)
    ensures HexValue(HexChar(d)) == Some(d)
  {
  }

  function ToHex(ds: seq<Nibble>): (s: string)
    ensures |s| == |ds|
  {
    if |ds| == 0 then "" else [HexChar(ds[0])] + ToHex(ds[1..])
  }

  /** Reads a string of hexadecimal digits; `None` when some character is not one. */
  function ParseHex(s: string): (r: Option<seq<Nibble>>)
    ensures r.Some? ==> |r.value| == |s|
    ensures r.Some? <==> forall i :: 0 <= i < |s| ==> IsHexChar(s[i])
    ensures r.Some? ==> forall i :: 0 <= i < |s| ==> HexValue(s[i]) == Some(r.value[i])
  {
    if |s| == 0 then Some([])
    else
      match (HexValue(s[0]), ParseHex(s[1..]))
      case (Some(d), Some(ds)) =>
        assert forall i :: 1 <= i < |s| ==> s[i] == s[1..][i - 1] && ([d] + ds)[i] == ds[i - 1];
        Some([d] + ds)
      case _ =>
        assert forall i :: 1 <= i < |s| ==> s[i] == s[1..][i - 1];
        None
  }

  lemma {:induction false} ToHexAppend(a: seq<Nibble>, b: seq<Nibble>)
    ensures ToHex(a + b) == ToHex(a) + ToHex(b)
  {
    if |a| > 0 {
      assert (a + b)[1..] == a[1..] + b;
      ToHexAppend(a[1..], b);
    } else {
      assert a + b == b;
    }
  }

  lemma {:induction false} ParseHexToHex(ds: seq<Nibble>)
    ensures ParseHex(ToHex(ds)) == Some(ds)
  {
    if |ds| > 0 {
      var s := ToHex(ds);
      assert s[0] == HexChar(ds[0]) && s[1..] == ToHex(ds[1..]);
      HexValueOfHexChar(ds[0]);
      ParseHexToHex(ds[1..]);
      assert [ds[0]] + ds[1..] == ds;
    }
  }

  /** `g.ToString()`: the "D" format, 8-4-4-4-12 lower-case digits joined by hyphens. */
  function Format(g: Guid): (s: string)
    ensures |s| == 36
    ensures s[8] == '-' && s[13] == '-' && s[18] == '-' && s[23] == '-'
  {
    ToHex(g[..8]) + "-" + ToHex(g[8..12]) + "-" + ToHex(g[12..16]) + "-" + ToHex(g[16..20]) + "-" + ToHex(g[20..])
  }

  /** The digit positions of the "D" format read in order: the string without its four hyphens. */
  function DigitsOfDFormat(s: string): (t: string)
    requires |s| == 36
    ensures |t| == 32
    ensures forall i :: 0 <= i < 32 ==>
      t[i] == s[if i < 8 then i else if i < 12 then i + 1 else if i < 16 then i + 2 else if i < 20 then i + 3 else i + 4]
  {
    s[..8] + s[9..13] + s[14..18] + s[19..23] + s[24..]
  }

  /**
   * `Guid.Parse(s)` for the "D" format (hyphenated) and the "N" format (32 digits), digits of
   * either case; `None` stands for the FormatException it throws on anything else.
   */
  function Parse(s: string): (r: Option<Guid>)
    ensures r.Some? ==> |s| == 36 || |s| == 32
    ensures |s| == 32 ==> (r.Some? <==> forall i :: 0 <= i < 32 ==> IsHexChar(s[i]))
    ensures |s| == 36 ==>
      (r.Some? <==>
        && s[8] == '-' && s[13] == '-' && s[18] == '-' && s[23] == '-'
        && forall i :: 0 <= i < 32 ==> IsHexChar(DigitsOfDFormat(s)[i]))
    ensures |s| == 36 && r.Some? ==> forall i :: 0 <= i < 32 ==> HexValue(DigitsOfDFormat(s)[i]) == Some(r.value[i])
    ensures |s| == 32 && r.Some? ==> forall i :: 0 <= i < 32 ==> HexValue(s[i]) == Some(r.value[i])
  {
    var digits :=
      if |s| == 36 && s[8] == '-' && s[13] == '-' && s[18] == '-' && s[23] == '-' then DigitsOfDFormat(s)
      else if |s| == 32 then s
      else "";
    match ParseHex(digits)
    case Some(ds) => if |ds| == 32 then Some(ds) else None
    case None => None
  }

  /** Parsing the text `ToString` writes gives back the same Guid. */
  lemma ParseFormat(g: Guid)
    ensures Parse(Format(g)) == Some(g)
  {
    var s := Format(g);
    var a, b, c, d, e := g[..8], g[8..12], g[12..16], g[16..20], g[20..];
    assert s == ToHex(a) + "-" + ToHex(b) + "-" + ToHex(c) + "-" + ToHex(d) + "-" + ToHex(e);
    assert s[..8] == ToHex(a);
    assert s[9..13] == ToHex(b);
    assert s[14..18] == ToHex(c);
    assert s[19..23] == ToHex(d);
    assert s[24..] == ToHex(e);
    ToHexAppend(a, b);
    ToHexAppend(a + b, c);
    ToHexAppend(a + b + c, d);
    ToHexAppend(a + b + c + d, e);
    assert a + b + c + d + e == g;
    assert DigitsOfDFormat(s) == ToHex(g);
    ParseHexToHex(g);
  }

  /** Two Guids with the same text are the same Guid. */
  lemma FormatInjective(g: Guid, h: Guid)
    requires Format(g) == Format(h)
    ensures g == h
  {
    ParseFormat(g);
    ParseFormat(h);
  }
}
