/** The two text codecs behind `bytes.decode(..., errors="replace")`.

    A Dafny `char` is a Unicode scalar value, as is every character those decoders
    return. Malformed input becomes U+FFFD, one per maximal ill-formed subpart
    (section 3.9 of The Unicode Standard), which is what CPython does. */
module Unicode {
  import opened Bytes

  const REPLACEMENT: char := 0xFFFD as char

  predicate Scalar(v: int) {
    0 <= v < 0xD800 || 0xE000 <= v < 0x11_0000
  }

  // ---- UTF-8 ----

  function Utf8Char(c: char): (b: seq<Byte>)
    ensures 1 <= |b| <= 4
  {
    var v := c as int;
    if v < 0x80 then [v]
    else if v < 0x800 then [0xC0 + v / 64, 0x80 + v % 64]
    else if v < 0x1_0000 then [0xE0 + v / 64 / 64, 0x80 + v / 64 % 64, 0x80 + v % 64]
    else [0xF0 + v / 64 / 64 / 64, 0x80 + v / 64 / 64 % 64, 0x80 + v / 64 % 64, 0x80 + v % 64]
  }

  function Utf8(s: string): seq<Byte> {
    if s == "" then [] else Utf8Char(s[0]) + Utf8(s[1..])
  }

  predicate Cont(b: Byte) {
    0x80 <= b < 0xC0
  }

  // Whether `b1` may follow the lead byte `b0`: no overlong form, no surrogate, nothing above U+10FFFF.
  predicate SecondOk(b0: Byte, b1: Byte) {
    && Cont(b1)
    && (b0 == 0xE0 ==> 0xA0 <= b1)
    && (b0 == 0xED ==> b1 < 0xA0)
    && (b0 == 0xF0 ==> 0x90 <= b1)
    && (b0 == 0xF4 ==> b1 < 0x90)
  }

  // `high` with the six payload bits of a continuation byte appended.
  function Tail(high: int, b: Byte): int {
    high * 64 + (b - 0x80)
  }

  // The next decoded character and the number of bytes it takes.
  function Utf8Next(b: seq<Byte>): (r: (char, nat))
    requires b != []
    ensures 1 <= r.1 <= |b|
  {
    var b0: int := b[0];
    if b0 < 0x80 then (b0 as char, 1)
    else if b0 < 0xC2 || 0xF5 <= b0 || |b| < 2 || !SecondOk(b0, b[1]) then (REPLACEMENT, 1)
    else if b0 < 0xE0 then (Tail(b0 - 0xC0, b[1]) as char, 2)
    else if |b| < 3 || !Cont(b[2]) then (REPLACEMENT, 2)
    else if b0 < 0xF0 then (Tail(Tail(b0 - 0xE0, b[1]), b[2]) as char, 3)
    else if |b| < 4 || !Cont(b[3]) then (REPLACEMENT, 3)
    else (Tail(Tail(Tail(b0 - 0xF0, b[1]), b[2]), b[3]) as char, 4)
  }

  function DecodeUtf8(b: seq<Byte>): string {
    if b == [] then "" else
      var (c, n) := Utf8Next(b);
      [c] + DecodeUtf8(b[n..])
  }

  lemma Utf8NextOfChar(c: char, rest: seq<Byte>)
    ensures Utf8Next(Utf8Char(c) + rest) == (c, |Utf8Char(c)|)
  {
    var b := Utf8Char(c) + rest;
    forall i | 0 <= i < |Utf8Char(c)| ensures b[i] == Utf8Char(c)[i] {}
  }

  /** Decoding undoes encoding, for every string. */
  lemma {:induction false} Utf8RoundTrip(s: string)
    ensures DecodeUtf8(Utf8(s)) == s
  {
    if s != "" {
      Utf8NextOfChar(s[0], Utf8(s[1..]));
      assert Utf8(s)[|Utf8Char(s[0])|..] == Utf8(s[1..]);
      Utf8RoundTrip(s[1..]);
    }
  }

  // ---- UTF-8 in pieces ----

  // The bytes that start a character, or stand where one should.
  function Leads(b: seq<Byte>): nat {
    if b == [] then 0 else (if Cont(b[0]) then 0 else 1) + Leads(b[1..])
  }

  lemma {:induction false} LeadsConcat(a: seq<Byte>, b: seq<Byte>)
    ensures Leads(a + b) == Leads(a) + Leads(b)
  {
    if a == [] {
      assert a + b == b;
    } else {
      assert (a + b)[1..] == a[1..] + b;
      LeadsConcat(a[1..], b);
    }
  }

  // One decoded character takes at most one leading byte, and none if it starts without.
  lemma NextLeads(b: seq<Byte>)
    requires b != []
    ensures var n := Utf8Next(b).1; Leads(b[..n]) == if Cont(b[0]) then 0 else 1
  {
    var n := Utf8Next(b).1;
    var first := b[..n];
    assert forall i :: 1 <= i < n ==> Cont(first[i]);
    hide Utf8Next;
    ContLeads(first[1..]);
  }

  lemma {:induction false} ContLeads(b: seq<Byte>)
    requires forall i :: 0 <= i < |b| ==> Cont(b[i])
    ensures Leads(b) == 0
  {
    if b != [] {
      ContLeads(b[1..]);
    }
  }

  /** Any bytes decode to at least as many characters as they have leading bytes, and to more if they start inside
      a character. */
  lemma {:induction false} DecodedLength(b: seq<Byte>)
    ensures |DecodeUtf8(b)| >= Leads(b)
    ensures b != [] && Cont(b[0]) ==> |DecodeUtf8(b)| > Leads(b)
    decreases |b|
  {
    if b != [] {
      var n := Utf8Next(b).1;
      DecodedLength(b[n..]);
      NextLeads(b);
      LeadsConcat(b[..n], b[n..]);
      assert b == b[..n] + b[n..];
      hide Utf8Next, Leads;
    }
  }

  lemma CharLeads(c: char)
    ensures Leads(Utf8Char(c)) == 1 && !Cont(Utf8Char(c)[0])
    ensures forall i :: 1 <= i < |Utf8Char(c)| ==> Cont(Utf8Char(c)[i])
  {
    var b := Utf8Char(c);
    assert forall i :: 1 <= i < |b| ==> Cont(b[i]);
    ContLeads(b[1..]);
  }

  lemma {:induction false} TextLeads(s: string)
    ensures Leads(Utf8(s)) == |s|
  {
    if s != "" {
      hide Utf8Char, Leads;
      CharLeads(s[0]);
      LeadsConcat(Utf8Char(s[0]), Utf8(s[1..]));
      TextLeads(s[1..]);
    } else {
      assert Leads([]) == 0;
    }
  }

  lemma {:induction false} Utf8Concat(s: string, t: string)
    ensures Utf8(s + t) == Utf8(s) + Utf8(t)
  {
    hide Utf8Char;
    if s == "" {
      assert s + t == t;
    } else {
      assert (s + t)[1..] == s[1..] + t;
      Utf8Concat(s[1..], t);
    }
  }

  // `k` bytes of the encoding of `s` are whole characters.
  ghost predicate Boundary(s: string, k: nat) {
    exists j :: 0 <= j <= |s| && k == |Utf8(s[..j])|
  }

  // The byte at `k`, if there is one, starts a character.
  predicate StartsAt(b: seq<Byte>, k: nat) {
    k < |b| ==> !Cont(b[k])
  }

  lemma BoundaryFirst(s: string, k: nat)
    requires s != ""
    ensures Boundary(s, k) <==> k == 0 || (k >= |Utf8Char(s[0])| && Boundary(s[1..], k - |Utf8Char(s[0])|))
  {
    hide Utf8Char;
    var n := |Utf8Char(s[0])|;
    assert s[..0] == "" && |Utf8("")| == 0;
    forall j | 1 <= j <= |s| ensures |Utf8(s[..j])| == n + |Utf8(s[1..][..j - 1])| {
      assert s[..j][1..] == s[1..][..j - 1];
    }
    hide Utf8;
    if k >= n && Boundary(s[1..], k - n) {
      var i :| 0 <= i <= |s| - 1 && k - n == |Utf8(s[1..][..i])|;
      assert k == |Utf8(s[..i + 1])|;
    }
    if j :| 1 <= j <= |s| && k == |Utf8(s[..j])| {
      assert k - n == |Utf8(s[1..][..j - 1])|;
    }
  }

  /** In encoded text the character boundaries are exactly the places where a leading byte stands, and the end. */
  lemma {:induction false} BoundaryIff(s: string, k: nat)
    requires k <= |Utf8(s)|
    ensures Boundary(s, k) <==> StartsAt(Utf8(s), k)
    decreases |s|
  {
    if s == "" {
      assert s[..0] == "";
    } else {
      BoundaryFirst(s, k);
      CharLeads(s[0]);
      var c := Utf8Char(s[0]);
      assert Utf8(s) == c + Utf8(s[1..]);
      hide Utf8Char, Utf8, Boundary;
      if k >= |c| {
        BoundaryIff(s[1..], k - |c|);
      }
    }
  }

  lemma BoundarySplits(s: string, a: seq<Byte>, b: seq<Byte>) returns (j: nat)
    requires a + b == Utf8(s) && Boundary(s, |a|)
    ensures j <= |s| && a == Utf8(s[..j]) && b == Utf8(s[j..])
  {
    hide Utf8;
    j :| 0 <= j <= |s| && |a| == |Utf8(s[..j])|;
    assert s[..j] + s[j..] == s;
    Utf8Concat(s[..j], s[j..]);
    assert a == (a + b)[..|a|] && b == (a + b)[|a|..];
  }

  function Flat(pieces: seq<seq<Byte>>): seq<Byte> {
    if pieces == [] then [] else pieces[0] + Flat(pieces[1..])
  }

  // The pieces decoded one by one.
  function DecodeEach(pieces: seq<seq<Byte>>): string {
    if pieces == [] then "" else DecodeUtf8(pieces[0]) + DecodeEach(pieces[1..])
  }

  predicate Clean(pieces: seq<seq<Byte>>) {
    pieces != [] ==> StartsAt(pieces[0], 0) && Clean(pieces[1..])
  }

  lemma {:induction false} EachLength(pieces: seq<seq<Byte>>)
    ensures |DecodeEach(pieces)| >= Leads(Flat(pieces))
    ensures !Clean(pieces) ==> |DecodeEach(pieces)| > Leads(Flat(pieces))
  {
    hide DecodeUtf8;
    if pieces != [] {
      DecodedLength(pieces[0]);
      EachLength(pieces[1..]);
      LeadsConcat(pieces[0], Flat(pieces[1..]));
      hide Leads;
    } else {
      assert Leads([]) == 0;
    }
  }

  lemma {:induction false} CleanStart(pieces: seq<seq<Byte>>)
    requires Clean(pieces)
    ensures StartsAt(Flat(pieces), 0)
  {
    if pieces != [] {
      CleanStart(pieces[1..]);
    }
  }

  /** Encoded text cut into pieces that are decoded one by one gives the text if and only if no piece starts inside
      a character; otherwise it gives more characters. */
  lemma {:induction false} PiecesText(pieces: seq<seq<Byte>>, s: string)
    requires Flat(pieces) == Utf8(s)
    ensures DecodeEach(pieces) == s <==> Clean(pieces)
    ensures !Clean(pieces) ==> |DecodeEach(pieces)| > |s|
    decreases |pieces|
  {
    hide Utf8, DecodeUtf8, Leads, Boundary;
    EachLength(pieces);
    TextLeads(s);
    if Clean(pieces) {
      if pieces == [] {
        Utf8RoundTrip(s);
        assert DecodeUtf8([]) == "" by {
          DecodeNothing();
        }
      } else {
        var a, b := pieces[0], Flat(pieces[1..]);
        CleanStart(pieces[1..]);
        assert StartsAt(Utf8(s), |a|);
        BoundaryIff(s, |a|);
        var j := BoundarySplits(s, a, b);
        Utf8RoundTrip(s[..j]);
        PiecesText(pieces[1..], s[j..]);
        assert s[..j] + s[j..] == s;
      }
    }
  }

  lemma DecodeNothing()
    ensures DecodeUtf8([]) == ""
  {
  }

  // ---- UTF-16, little endian ----

  function Utf16Char(c: char): (b: seq<Byte>)
    ensures |b| == 2 || |b| == 4
  {
    var v := c as int;
    if v < 0x1_0000 then LE16(v)
    else LE16(0xD800 + (v - 0x1_0000) / 1024) + LE16(0xDC00 + (v - 0x1_0000) % 1024)
  }

  function Utf16(s: string): (b: seq<Byte>)
    ensures |b| % 2 == 0
  {
    if s == "" then [] else Utf16Char(s[0]) + Utf16(s[1..])
  }

  function Utf16Next(b: seq<Byte>): (r: (char, nat))
    requires b != []
    ensures 1 <= r.1 <= |b|
  {
    if |b| < 2 then (REPLACEMENT, |b|)
    else
      var u := U16At(b, 0);
      if Scalar(u) then (u as char, 2)
      else if 0xDC00 <= u then (REPLACEMENT, 2)
      else if |b| < 4 then (REPLACEMENT, |b|)
      else
        var lo := U16At(b, 2);
        if 0xDC00 <= lo < 0xE000 then ((0x1_0000 + (u - 0xD800) * 1024 + (lo - 0xDC00)) as char, 4)
        else (REPLACEMENT, 2)
  }

  function DecodeUtf16(b: seq<Byte>): string {
    if b == [] then "" else
      var (c, n) := Utf16Next(b);
      [c] + DecodeUtf16(b[n..])
  }

  lemma Utf16NextOfChar(c: char, rest: seq<Byte>)
    ensures Utf16Next(Utf16Char(c) + rest) == (c, |Utf16Char(c)|)
  {
    var b := Utf16Char(c) + rest;
    var v := c as int;
    assert Holds(b, 0, Utf16Char(c));
    if v < 0x1_0000 {
      Read16(b, 0, v);
    } else {
      var w := v - 0x1_0000;
      HoldsSplit(b, 0, LE16(0xD800 + w / 1024), LE16(0xDC00 + w % 1024));
      Read16(b, 0, 0xD800 + w / 1024);
      Read16(b, 2, 0xDC00 + w % 1024);
    }
  }

  lemma {:induction false} Utf16RoundTrip(s: string)
    ensures DecodeUtf16(Utf16(s)) == s
  {
    if s != "" {
      Utf16NextOfChar(s[0], Utf16(s[1..]));
      assert Utf16(s)[|Utf16Char(s[0])|..] == Utf16(s[1..]);
      Utf16RoundTrip(s[1..]);
    }
  }
}
