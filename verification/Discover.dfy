/**
 internal/eebusgo/discover.go, unescapeInstanceName: undoing the escaping of DNS-SD instance names
 (section 4.3 of RFC 6763, section 5.1 of RFC 1035). Go strings are byte strings.
 */
module Discover {
  type Byte = b: int | 0 <= b < 256

  const BACKSLASH: Byte := 92

  predicate IsDigit(c: Byte) {
    48 <= c <= 57
  }

  function DecimalValue(hundreds: int, tens: int, ones: int): int {
    (hundreds - 48) * 100 + (tens - 48) * 10 + (ones - 48)
  }

  /** A \DDD escape stands at position i and names a byte. */
  predicate DecimalAt(s: seq<Byte>, i: nat) {
    && i + 3 < |s| && s[i] == BACKSLASH && IsDigit(s[i + 1]) && IsDigit(s[i + 2]) && IsDigit(s[i + 3])
    && DecimalValue(s[i + 1], s[i + 2], s[i + 3]) <= 255
  }

  /** What is read at position i, and how many bytes of the input it took. */
  function ReadAt(s: seq<Byte>, i: nat): (r: (Byte, nat))
    requires i < |s|
    ensures 1 <= r.1 <= |s| - i
  {
    if s[i] != BACKSLASH then (s[i], 1)
    else if DecimalAt(s, i) then (DecimalValue(s[i + 1], s[i + 2], s[i + 3]), 4)
    else if i + 1 < |s| then (s[i + 1], 2)
    else (BACKSLASH, 1)
  }

  function UnescapedFrom(s: seq<Byte>, i: nat): seq<Byte>
    requires i <= |s|
    decreases |s| - i
  {
    if i == |s| then [] else [ReadAt(s, i).0] + UnescapedFrom(s, i + ReadAt(s, i).1)
  }

  function Unescaped(s: seq<Byte>): seq<Byte> {
    UnescapedFrom(s, 0)
  }

  method UnescapeInstanceName(s: seq<Byte>) returns (b: seq<Byte>)
    ensures b == Unescaped(s)
  {
    b := [];
    var i := 0;
    while i < |s|
      invariant 0 <= i <= |s|
      invariant b + UnescapedFrom(s, i) == Unescaped(s)
    {
      ghost var start, sofar := i, b;
      if s[i] != BACKSLASH {
        b := b + [s[i]];
      } else {
        var decimal := false;
        if i + 3 < |s| && IsDigit(s[i + 1]) && IsDigit(s[i + 2]) && IsDigit(s[i + 3]) {
          var n := DecimalValue(s[i + 1], s[i + 2], s[i + 3]);
          if n <= 255 {
            b := b + [n];
            i := i + 3;
            decimal := true;
          }
        }
        if !decimal {
          if i + 1 < |s| {
            b := b + [s[i + 1]];
            i := i + 1;
          } else {
            b := b + [BACKSLASH];
          }
        }
      }
      i := i + 1;
      assert b == sofar + [ReadAt(s, start).0] && i == start + ReadAt(s, start).1;
      ReadNext(s, start, sofar);
    }
  }

  lemma ReadNext(s: seq<Byte>, i: nat, sofar: seq<Byte>)
    requires i < |s|
    ensures sofar + [ReadAt(s, i).0] + UnescapedFrom(s, i + ReadAt(s, i).1) == sofar + UnescapedFrom(s, i)
  {
  }

  // ------------------------------------------------- every escaping of a name

  /** The announcer may write each byte of a name in one of these ways. */
  datatype Written = Plain(value: Byte) | Quoted(value: Byte) | Decimal(value: Byte)

  predicate Allowed(w: Written) {
    match w
    case Plain(v) => v != BACKSLASH
    case Quoted(v) => v < 48 || 57 < v
    case Decimal(_) => true
  }

  predicate AllAllowed(ws: seq<Written>) {
    forall i | 0 <= i < |ws| :: Allowed(ws[i])
  }

  function Bytes(w: Written): seq<Byte> {
    match w
    case Plain(v) => [v]
    case Quoted(v) => [BACKSLASH, v]
    case Decimal(v) => [BACKSLASH, 48 + v / 100, 48 + v / 10 % 10, 48 + v % 10]
  }

  function Escaped(ws: seq<Written>): seq<Byte> {
    if ws == [] then [] else Bytes(ws[0]) + Escaped(ws[1..])
  }

  function Name(ws: seq<Written>): seq<Byte> {
    seq(|ws|, i requires 0 <= i < |ws| => ws[i].value)
  }

  /** Reading depends on what follows only. */
  lemma {:induction false} FromSuffix(p: seq<Byte>, s: seq<Byte>, i: nat)
    requires i <= |s|
    ensures UnescapedFrom(p + s, |p| + i) == UnescapedFrom(s, i)
    decreases |s| - i
  {
    if i < |s| {
      ReadSuffix(p, s, i);
      FromSuffix(p, s, i + ReadAt(s, i).1);
    }
  }

  lemma ReadSuffix(p: seq<Byte>, s: seq<Byte>, i: nat)
    requires i < |s|
    ensures ReadAt(p + s, |p| + i) == ReadAt(s, i)
  {
    var t := p + s;
    assert t[|p| + i] == s[i];
    assert i + 1 < |s| ==> t[|p| + i + 1] == s[i + 1];
    assert i + 2 < |s| ==> t[|p| + i + 2] == s[i + 2];
    assert i + 3 < |s| ==> t[|p| + i + 3] == s[i + 3];
  }

  lemma DigitsOf(v: Byte)
    ensures IsDigit(48 + v / 100) && IsDigit(48 + v / 10 % 10) && IsDigit(48 + v % 10)
    ensures DecimalValue(48 + v / 100, 48 + v / 10 % 10, 48 + v % 10) == v
  {
    assert v / 100 < 10 && v / 10 == v / 100 * 10 + v / 10 % 10;
  }

  lemma ReadOne(w: Written, rest: seq<Byte>)
    requires Allowed(w)
    ensures Unescaped(Bytes(w) + rest) == [w.value] + Unescaped(rest)
  {
    var s := Bytes(w) + rest;
    match w {
      case Plain(v) => assert s[0] == v;
      case Quoted(v) => assert s[0] == BACKSLASH && s[1] == v;
      case Decimal(v) =>
        DigitsOf(v);
        assert s[..4] == Bytes(w);
        assert s[0] == s[..4][0] && s[1] == s[..4][1] && s[2] == s[..4][2] && s[3] == s[..4][3];
    }
    assert ReadAt(s, 0) == (w.value, |Bytes(w)|);
    FromSuffix(Bytes(w), rest, 0);
  }

  /** However a name was escaped, unescaping gives it back, whatever follows it. */
  lemma {:induction false} UnescapeInvertsEscaping(ws: seq<Written>, rest: seq<Byte>)
    requires AllAllowed(ws)
    ensures Unescaped(Escaped(ws) + rest) == Name(ws) + Unescaped(rest)
  {
    if ws == [] {
      assert Escaped(ws) + rest == rest;
    } else {
      UnescapeInvertsEscaping(ws[1..], rest);
      ReadOne(ws[0], Escaped(ws[1..]) + rest);
      assert Escaped(ws) + rest == Bytes(ws[0]) + (Escaped(ws[1..]) + rest);
      assert Name(ws) == [ws[0].value] + Name(ws[1..]);
    }
  }

  /** A name without a backslash is left alone; one lone backslash at the very end stays. */
  predicate Untouched(s: seq<Byte>, i: nat) {
    forall k | i <= k < |s| - 1 :: s[k] != BACKSLASH
  }

  /** The result is never longer, and exactly as long only where nothing was escaped and nothing changes. */
  lemma {:induction false} NeverLonger(s: seq<Byte>, i: nat)
    requires i <= |s|
    ensures |UnescapedFrom(s, i)| <= |s| - i
    ensures |UnescapedFrom(s, i)| == |s| - i <==> Untouched(s, i)
    ensures Untouched(s, i) ==> UnescapedFrom(s, i) == s[i..]
    decreases |s| - i
  {
    if i < |s| {
      NeverLonger(s, i + ReadAt(s, i).1);
    }
  }

  /**
   A quoted digit is not among the escapings, and it comes back exactly when the two bytes that follow do not
   happen to be digits that make a byte with it.
   */
  lemma QuotedDigit(v: Byte, rest: seq<Byte>)
    requires 48 <= v <= 57
    ensures
      Unescaped([92, v] + rest) == [v] + Unescaped(rest) <==>
      !(&& |rest| >= 2 && 48 <= rest[0] <= 57 && 48 <= rest[1] <= 57
        && (v - 48) * 100 + (rest[0] - 48) * 10 + (rest[1] - 48) < 256)
  {
    var s := [BACKSLASH, v] + rest;
    if DecimalAt(s, 0) {
      assert s[2] == rest[0] && s[3] == rest[1];
      FromSuffix(s[..4], rest[2..], 0);
      assert s == s[..4] + rest[2..];
      assert ReadAt(rest, 0) == (rest[0], 1) && ReadAt(rest, 1) == (rest[1], 1);
      FromSuffix(rest[..2], rest[2..], 0);
      assert rest == rest[..2] + rest[2..];
      assert UnescapedFrom(rest, 1) == [rest[1]] + UnescapedFrom(rest, 2);
      assert |Unescaped(rest)| == 2 + |Unescaped(rest[2..])|;
    } else {
      assert ReadAt(s, 0) == (v, 2);
      FromSuffix([BACKSLASH, v], rest, 0);
    }
  }
}
