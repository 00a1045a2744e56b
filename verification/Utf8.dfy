/** UTF-8 as section 3 of RFC 3629 defines it, and what decoding makes of a record cut inside a
    sequence. */
module Utf8 {

  type Byte = x: int | 0 <= x < 256
  type Bytes = seq<Byte>

  /** A Unicode scalar value. */
  type Point = x: int | 0 <= x < 0xD800 || 0xE000 <= x < 0x110000
  type Text = seq<Point>

  const REPLACEMENT: Point := 0xFFFD

  function EncodePoint(c: Point): (b: Bytes)
    ensures 1 <= |b| <= 4
  {
    if c < 0x80 then [c]
    else if c < 0x800 then [0xC0 + c / 64, 0x80 + c % 64]
    else if c < 0x10000 then [0xE0 + c / 64 / 64, 0x80 + c / 64 % 64, 0x80 + c % 64]
    else [0xF0 + c / 64 / 64 / 64, 0x80 + c / 64 / 64 % 64, 0x80 + c / 64 % 64, 0x80 + c % 64]
  }

  function Encode(t: Text): Bytes {
    if t == [] then [] else EncodePoint(t[0]) + Encode(t[1..])
  }

  /** The length of the sequence a lead byte announces. */
  function SequenceLength(lead: Byte): (n: nat)
    ensures 1 <= n <= 4
  {
    if lead < 0xC0 then 1 else if lead < 0xE0 then 2 else if lead < 0xF0 then 3 else 4
  }

  function Scalar(x: int): Point {
    if 0 <= x < 0xD800 || 0xE000 <= x < 0x110000 then x else REPLACEMENT
  }

  /** One more continuation byte. */
  function Continue(high: int, next: int): int {
    high * 64 + (next - 0x80)
  }

  function DecodePoint(b: Bytes): Point
    requires b != [] && |b| == SequenceLength(b[0])
  {
    var lead: int := b[0];
    if |b| == 1 then Scalar(lead)
    else if |b| == 2 then Scalar(Continue(lead - 0xC0, b[1]))
    else if |b| == 3 then Scalar(Continue(Continue(lead - 0xE0, b[1]), b[2]))
    else Scalar(Continue(Continue(Continue(lead - 0xF0, b[1]), b[2]), b[3]))
  }

  /** `Buffer.toString("utf8")` on a prefix of well-formed bytes: an incomplete last sequence
      becomes one replacement character. */
  function Decode(b: Bytes): Text {
    if b == [] then []
    else
      var n := SequenceLength(b[0]);
      if |b| < n then [REPLACEMENT] else [DecodePoint(b[..n])] + Decode(b[n..])
  }

  lemma PointRoundTrip(c: Point)
    ensures SequenceLength(EncodePoint(c)[0]) == |EncodePoint(c)|
    ensures DecodePoint(EncodePoint(c)) == c
  {
    if c >= 0x800 {
      assert Continue(c / 64 / 64, 0x80 + c / 64 % 64) == c / 64;
    }
    if c >= 0x10000 {
      assert Continue(c / 64 / 64 / 64, 0x80 + c / 64 / 64 % 64) == c / 64 / 64;
    }
  }

  lemma DecodeStep(c: Point, rest: Bytes)
    ensures Decode(EncodePoint(c) + rest) == [c] + Decode(rest)
  {
    PointRoundTrip(c);
    var e := EncodePoint(c);
    var b := e + rest;
    assert b[0] == e[0] && b[..|e|] == e && b[|e|..] == rest;
  }

  lemma DecodeIncomplete(c: Point, n: nat)
    requires 0 < n < |EncodePoint(c)|
    ensures Decode(EncodePoint(c)[..n]) == [REPLACEMENT]
  {
    PointRoundTrip(c);
  }

  /** How many whole characters fit in `n` bytes. */
  function Fitting(t: Text, n: nat): (k: nat)
    ensures k <= |t|
  {
    if t == [] || |EncodePoint(t[0])| > n then 0 else 1 + Fitting(t[1..], n - |EncodePoint(t[0])|)
  }

  /** The characters that fit in `n` bytes, and one replacement character when `n` falls inside a
      sequence. */
  function Kept(t: Text, n: nat): Text {
    var fits := t[..Fitting(t, n)];
    fits + (if |Encode(fits)| == n then [] else [REPLACEMENT])
  }

  lemma CutInside(t: Text, n: nat)
    requires t != [] && n < |EncodePoint(t[0])|
    ensures n <= |Encode(t)| && |Encode(t[..Fitting(t, n)])| <= n && Decode(Encode(t)[..n]) == Kept(t, n)
  {
    TakeWithin(EncodePoint(t[0]), Encode(t[1..]), n);
    assert t[..0] == [];
    if n > 0 {
      DecodeIncomplete(t[0], n);
    }
  }

  /** What is kept begins with the first character when that fits. */
  lemma KeptStep(t: Text, n: nat)
    requires t != [] && |EncodePoint(t[0])| <= n
    ensures
      var tail, m := t[1..], n - |EncodePoint(t[0])|;
      && Kept(t, n) == [t[0]] + Kept(tail, m)
      && |Encode(t[..Fitting(t, n)])| == |EncodePoint(t[0])| + |Encode(tail[..Fitting(tail, m)])|
  {
    var e, tail := EncodePoint(t[0]), t[1..];
    var k := Fitting(tail, n - |e|);
    TakeOneMore(t, k);
    Associates([t[0]], tail[..k], if |Encode(tail[..k])| == n - |e| then [] else [REPLACEMENT]);
  }

  lemma CutStep(t: Text, n: nat)
    requires t != [] && |EncodePoint(t[0])| <= n <= |Encode(t)|
    ensures Decode(Encode(t)[..n]) == [t[0]] + Decode(Encode(t[1..])[..n - |EncodePoint(t[0])|])
  {
    var e, tail := EncodePoint(t[0]), t[1..];
    TakePast(e, Encode(tail), n);
    DecodeStep(t[0], Encode(tail)[..n - |e|]);
  }

  /** Cutting an encoding after `n` bytes and decoding it keeps the characters that fit, and one
      replacement character when the cut falls inside a sequence. */
  lemma {:induction false} DecodeOfCut(t: Text, n: nat)
    requires n <= |Encode(t)|
    ensures |Encode(t[..Fitting(t, n)])| <= n && Decode(Encode(t)[..n]) == Kept(t, n)
  {
    if t != [] {
      var e := |EncodePoint(t[0])|;
      if e > n {
        CutInside(t, n);
      } else {
        DecodeOfCut(t[1..], n - e);
        KeptStep(t, n);
        CutStep(t, n);
      }
    }
  }

  /** Encoding loses nothing. */
  lemma {:induction false} DecodeEncodes(t: Text)
    ensures Decode(Encode(t)) == t
  {
    if t != [] {
      DecodeStep(t[0], Encode(t[1..]));
      DecodeEncodes(t[1..]);
    }
  }

  lemma EncodeInjective(s: Text, t: Text)
    requires Encode(s) == Encode(t)
    ensures s == t
  {
    DecodeEncodes(s);
    DecodeEncodes(t);
  }

  lemma TakeWithin(e: Bytes, s: Bytes, n: nat)
    requires n <= |e|
    ensures (e + s)[..n] == e[..n]
  {
  }

  lemma TakePast(e: Bytes, s: Bytes, n: nat)
    requires |e| <= n <= |e + s|
    ensures (e + s)[..n] == e + s[..n - |e|]
  {
  }

  lemma Associates(a: Text, b: Text, c: Text)
    ensures a + (b + c) == (a + b) + c
  {
  }

  lemma TakeOneMore(t: Text, k: nat)
    requires t != [] && k <= |t[1..]|
    ensures t[..k + 1] == [t[0]] + t[1..][..k]
    ensures Encode(t[..k + 1]) == EncodePoint(t[0]) + Encode(t[1..][..k])
  {
    assert t[..k + 1][1..] == t[1..][..k];
  }

  /** `.replace(/\uFFFD$/u, "")`. */
  function StripReplacement(t: Text): Text {
    if t != [] && t[|t| - 1] == REPLACEMENT then t[..|t| - 1] else t
  }

  /** The text of a record cut to `n` bytes. */
  function Cut(t: Text, n: nat): Text
    requires n <= |Encode(t)|
  {
    StripReplacement(Decode(Encode(t)[..n]))
  }

  lemma {:induction false} EncodeAppends(s: Text, t: Text)
    ensures Encode(s + t) == Encode(s) + Encode(t)
  {
    if s == [] {
      assert s + t == t;
    } else {
      assert (s + t)[1..] == s[1..] + t;
      EncodeAppends(s[1..], t);
    }
  }

  /** However the cut falls, what is left is a prefix of the text in whole characters, within the
      bytes allowed. */
  lemma CutIsPrefix(t: Text, n: nat)
    requires n <= |Encode(t)|
    ensures Cut(t, n) <= t && |Encode(Cut(t, n))| <= n
  {
    DecodeOfCut(t, n);
    var k := Fitting(t, n);
    if |Encode(t[..k])| == n {
      assert Cut(t, n) == StripReplacement(t[..k]);
      StrippedIsPrefix(t[..k]);
    } else {
      assert Cut(t, n) == t[..k];
    }
  }

  /** One more character would not have fitted. */
  lemma {:induction false} FittingIsMaximal(t: Text, n: nat)
    ensures Fitting(t, n) < |t| ==> |Encode(t[..Fitting(t, n) + 1])| > n
  {
    if t != [] {
      var e := |EncodePoint(t[0])|;
      if e > n {
        TakeOneMore(t, 0);
        assert t[1..][..0] == [];
      } else {
        FittingIsMaximal(t[1..], n - e);
        if Fitting(t, n) < |t| {
          TakeOneMore(t, Fitting(t, n));
        }
      }
    }
  }

  /** The text kept is all that fits, except that a replacement character of the text itself is
      stripped when it is the last to fit exactly. */
  lemma CutKeepsWhatFitsExactlyWhen(t: Text, n: nat)
    requires n <= |Encode(t)|
    ensures
      var k := Fitting(t, n);
      Cut(t, n) == t[..k] <==> !(k > 0 && t[k - 1] == REPLACEMENT && |Encode(t[..k])| == n)
  {
    DecodeOfCut(t, n);
    var k := Fitting(t, n);
    if |Encode(t[..k])| != n {
      assert (t[..k] + [REPLACEMENT])[..k] == t[..k];
    }
  }

  /** Exactly a prefix fits in its own bytes. */
  lemma {:induction false} FittingOfPrefix(p: Text, q: Text)
    ensures Fitting(p + q, |Encode(p)|) == |p|
  {
    if p == [] {
      assert p + q == q;
    } else {
      assert (p + q)[0] == p[0] && (p + q)[1..] == p[1..] + q;
      FittingOfPrefix(p[1..], q);
    }
  }

  lemma StrippedIsPrefix(t: Text)
    ensures StripReplacement(t) <= t && |Encode(StripReplacement(t))| <= |Encode(t)|
  {
    if t != [] {
      var last := |t| - 1;
      assert t == t[..last] + [t[last]];
      EncodeAppends(t[..last], [t[last]]);
    }
  }
}
