/** Number formatting (`str(n)`, `f"{n:x}"`), `str.join`, `in`, and XML attribute escaping. */
module Text {
  import opened Common

  // ---- numerals ----

  function Digit(d: nat): (c: char)
    requires d < 16
    ensures DigitValue(c) == d
  {
    if d < 10 then '0' + d as char else 'a' + (d - 10) as char
  }

  function Numeral(n: nat, base: nat): (s: string)
    requires base == 10 || base == 16
    ensures s != ""
  {
    if n < base then [Digit(n)] else Numeral(n / base, base) + [Digit(n % base)]
  }

  function DigitValue(c: char): (d: int)
    ensures -1 <= d < 16
  {
    if '0' <= c <= '9' then c as int - '0' as int
    else if 'a' <= c <= 'f' then c as int - 'a' as int + 10
    else -1
  }

  // The number a digit string denotes: `int(s, base)`, or None where that raises ValueError.
  function ReadNumeral(s: string, base: nat): Option<nat> {
    if s == "" then None
    else
      var d := DigitValue(s[|s| - 1]);
      if d < 0 || base <= d then None
      else if |s| == 1 then Some(d)
      else match ReadNumeral(s[..|s| - 1], base)
        case None => None
        case Some(high) => Some(high * base + d)
  }

  /** A printed numeral reads back as the number, in every base. */
  lemma {:induction false} NumeralRoundTrip(n: nat, base: nat)
    requires base == 10 || base == 16
    ensures ReadNumeral(Numeral(n, base), base) == Some(n)
  {
    var s := Numeral(n, base);
    if n >= base {
      var q, d := n / base, n % base;
      NumeralRoundTrip(q, base);
      assert s == Numeral(q, base) + [Digit(d)];
      assert s[..|s| - 1] == Numeral(q, base) && s[|s| - 1] == Digit(d);
      assert q * base + d == n;
    }
  }

  function Decimal(v: int): (s: string)
    ensures s != ""
  {
    if v < 0 then "-" + Numeral(-v, 10) else Numeral(v, 10)
  }

  function ReadDecimal(s: string): Option<int> {
    if s != "" && s[0] == '-' then
      match ReadNumeral(s[1..], 10)
      case None => None
      case Some(n) => Some(-(n as int))
    else ReadNumeral(s, 10)
  }

  lemma NumeralHasDigits(n: nat, base: nat)
    requires base == 10 || base == 16
    ensures Numeral(n, base)[0] != '-'
  {
    if n >= base {
      NumeralHasDigits(n / base, base);
    }
  }

  lemma DecimalRoundTrip(v: int)
    ensures ReadDecimal(Decimal(v)) == Some(v)
  {
    if v < 0 {
      NumeralRoundTrip(-v, 10);
    } else {
      NumeralRoundTrip(v, 10);
      NumeralHasDigits(v, 10);
    }
  }

  // `f"{n:0{width}d}"` for a non-negative number.
  function PadLeft(s: string, width: nat): (r: string)
    ensures |s| <= |r| && r[|r| - |s|..] == s
    ensures forall i :: 0 <= i < |r| - |s| ==> r[i] == '0'
    decreases width - |s|
  {
    if |s| >= width then s else PadLeft("0" + s, width)
  }

  // ---- strings ----

  lemma Assoc<T>(a: seq<T>, b: seq<T>, c: seq<T>)
    ensures (a + b) + c == a + (b + c)
  {
  }

  function Join(parts: seq<string>, sep: string): string {
    if parts == [] then ""
    else if |parts| == 1 then parts[0]
    else parts[0] + sep + Join(parts[1..], sep)
  }

  // `needle in hay`
  predicate Contains(hay: string, needle: string) {
    exists i :: 0 <= i <= |hay| && OccursAt(hay, needle, i)
  }

  predicate OccursAt(hay: string, needle: string, i: nat) {
    i + |needle| <= |hay| && hay[i..i + |needle|] == needle
  }

  // ---- xml.sax.saxutils.escape(v, {'"': "&quot;"}) ----

  function Replace(s: string, c: char, with: string): string {
    if s == "" then "" else (if s[0] == c then with else [s[0]]) + Replace(s[1..], c, with)
  }

  function Escape(v: string): string {
    Replace(Replace(Replace(Replace(v, '&', "&amp;"), '>', "&gt;"), '<', "&lt;"), '"', "&quot;")
  }

  function Entity(c: char): string {
    match c
    case '&' => "&amp;"
    case '>' => "&gt;"
    case '<' => "&lt;"
    case '"' => "&quot;"
    case _ => [c]
  }

  // The contents of a double-quoted AttValue (sections 2.3 and 4.6 of XML 1.0): no '<', no '"',
  // and every '&' starts a reference, here to one of the four entities `escape` emits.
  function ReadAttValue(s: string): Option<string> {
    if s == "" then Some("")
    else
      var (c, n) :=
        if |s| >= 5 && s[..5] == "&amp;" then ('&', 5)
        else if |s| >= 4 && s[..4] == "&gt;" then ('>', 4)
        else if |s| >= 4 && s[..4] == "&lt;" then ('<', 4)
        else if |s| >= 6 && s[..6] == "&quot;" then ('"', 6)
        else if s[0] == '&' || s[0] == '<' || s[0] == '"' then (' ', 0)
        else (s[0], 1);
      if n == 0 then None
      else match ReadAttValue(s[n..])
        case None => None
        case Some(rest) => Some([c] + rest)
  }

  lemma ReplaceHead(a: char, s: string, c: char, with: string)
    ensures Replace([a] + s, c, with) == (if a == c then with else [a]) + Replace(s, c, with)
  {
    assert ([a] + s)[1..] == s;
  }

  lemma {:induction false} ReplaceConcat(a: string, b: string, c: char, with: string)
    ensures Replace(a + b, c, with) == Replace(a, c, with) + Replace(b, c, with)
  {
    if a == "" {
      assert a + b == b;
    } else {
      ReplaceConcat(a[1..], b, c, with);
      ReplaceHead(a[0], a[1..] + b, c, with);
      ReplaceHead(a[0], a[1..], c, with);
      hide Replace;
      Assoc([a[0]], a[1..], b);
      Assoc(if a[0] == c then with else [a[0]], Replace(a[1..], c, with), Replace(b, c, with));
      assert a == [a[0]] + a[1..];
    }
  }

  lemma {:induction false} ReplaceAbsent(a: string, c: char, with: string)
    requires c !in a
    ensures Replace(a, c, with) == a
  {
    if a != "" {
      ReplaceAbsent(a[1..], c, with);
    }
  }

  lemma ReplaceOne(a: char, c: char, with: string)
    ensures Replace([a], c, with) == if a == c then with else [a]
  {
    assert [a][1..] == "";
    assert Replace("", c, with) == "";
  }

  lemma EscapeChar(c: char)
    ensures Escape([c]) == Entity(c)
  {
    hide Replace;
    var s1 := Replace([c], '&', "&amp;");
    ReplaceOne(c, '&', "&amp;");
    var s2 := Replace(s1, '>', "&gt;");
    var s3 := Replace(s2, '<', "&lt;");
    if c == '&' {
      ReplaceAbsent(s1, '>', "&gt;");
    } else {
      ReplaceOne(c, '>', "&gt;");
    }
    if c == '&' || c == '>' {
      ReplaceAbsent(s2, '<', "&lt;");
    } else {
      ReplaceOne(c, '<', "&lt;");
    }
    if c == '&' || c == '>' || c == '<' {
      ReplaceAbsent(s3, '"', "&quot;");
    } else {
      ReplaceOne(c, '"', "&quot;");
    }
  }

  // The four passes act on each character on its own: no pass touches what an earlier one wrote.
  lemma EscapeStep(v: string)
    requires v != ""
    ensures Escape(v) == Entity(v[0]) + Escape(v[1..])
  {
    var a, b := [v[0]], v[1..];
    assert v == a + b;
    ReplaceConcat(a, b, '&', "&amp;");
    var a1, b1 := Replace(a, '&', "&amp;"), Replace(b, '&', "&amp;");
    ReplaceConcat(a1, b1, '>', "&gt;");
    var a2, b2 := Replace(a1, '>', "&gt;"), Replace(b1, '>', "&gt;");
    ReplaceConcat(a2, b2, '<', "&lt;");
    ReplaceConcat(Replace(a2, '<', "&lt;"), Replace(b2, '<', "&lt;"), '"', "&quot;");
    EscapeChar(v[0]);
  }

  lemma ReadEntity(c: char, rest: string)
    requires ReadAttValue(rest).Some?
    ensures ReadAttValue(Entity(c) + rest) == Some([c] + ReadAttValue(rest).value)
  {
    var e := Entity(c);
    var s := e + rest;
    assert s[..|e|] == e && s[|e|..] == rest && s[0] == e[0];
    if c == '&' {
    } else if c == '>' {
      assert s[1] == 'g';
      assert |s| >= 5 ==> s[..5][1] == 'g';
    } else if c == '<' {
      assert s[1] == 'l';
      assert |s| >= 5 ==> s[..5][1] == 'l';
      assert s[..4][1] == 'l';
    } else if c == '"' {
      assert s[..5][1] == 'q' && s[..4][1] == 'q';
    } else {
      assert |s| >= 4 ==> s[..4][0] == c;
      assert |s| >= 5 ==> s[..5][0] == c;
      assert |s| >= 6 ==> s[..6][0] == c;
    }
  }

  /** An escaped value is a legal attribute value, and an XML reader gets the original back. */
  lemma {:induction false} EscapeRoundTrip(v: string)
    ensures ReadAttValue(Escape(v)) == Some(v)
  {
    if v != "" {
      EscapeStep(v);
      assert v == [v[0]] + v[1..];
      EscapeRoundTrip(v[1..]);
      ReadEntity(v[0], Escape(v[1..]));
    }
  }
}
