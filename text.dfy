/** The few Python `str` operations the question and card code relies on:
    `str.split(",")`, `str.strip()`, `", ".join(...)` and decimal rendering of integers
    inside f-strings. */
module Text {

  /** Python's `str.isspace()` for a single character: the ASCII separators and the
      Unicode space characters. */
  predicate IsSpace(c: char)
  {
    ('\t' <= c <= '\r') || ('\U{1C}' <= c <= '\U{1F}') || c == ' ' || c == '\U{85}' ||
    c == '\U{A0}' || c == '\U{1680}' || ('\U{2000}' <= c <= '\U{200A}') ||
    c == '\U{2028}' || c == '\U{2029}' || c == '\U{202F}' || c == '\U{205F}' || c == '\U{3000}'
  }

  /** `s.split(sep)` for a one-character separator: the pieces between separators, in order;
      an empty string splits into one empty piece. */
  function Split(s: string, sep: char): (pieces: seq<string>)
    ensures |pieces| >= 1
    ensures forall k :: 0 <= k < |pieces| ==> sep !in pieces[k]
  {
    if s == [] then [[]]
    else if s[0] == sep then [[]] + Split(s[1..], sep)
    else
      var rest := Split(s[1..], sep);
      [[s[0]] + rest[0]] + rest[1..]
  }

  function LStrip(s: string): (r: string)
    ensures r == [] || !IsSpace(r[0])
    ensures |r| <= |s| && r == s[|s| - |r|..]
  {
    if s != [] && IsSpace(s[0]) then LStrip(s[1..]) else s
  }

  function RStrip(s: string): (r: string)
    ensures r == [] || !IsSpace(r[|r| - 1])
    ensures |r| <= |s| && r == s[..|r|]
  {
    if s != [] && IsSpace(s[|s| - 1]) then RStrip(s[..|s| - 1]) else s
  }

  /** `s.strip()`: drops leading and trailing whitespace. */
  function Strip(s: string): (r: string)
    ensures r == [] || (!IsSpace(r[0]) && !IsSpace(r[|r| - 1]))
    ensures forall k :: 0 <= k < |r| ==> r[k] in s
  {
    var l := LStrip(s);
    var r := RStrip(l);
    RStripKeepsHead(l);
    r
  }

  lemma {:induction false} RStripKeepsHead(s: string)
    requires s == [] || !IsSpace(s[0])
    ensures RStrip(s) == [] || RStrip(s)[0] == s[0]
  {
    if s != [] && IsSpace(s[|s| - 1]) {
      RStripKeepsHead(s[..|s| - 1]);
    }
  }

  /** A string with no whitespace at either end is its own strip. */
  lemma StripUnspaced(s: string)
    requires s == [] || (!IsSpace(s[0]) && !IsSpace(s[|s| - 1]))
    ensures Strip(s) == s
  {
  }

  /** A string without the separator splits into itself alone. */
  lemma SplitWithoutSeparator(s: string)
    requires ',' !in s
    ensures Split(s, ',') == [s]
  {
    SplitPrefix(s, "");
    assert s + "" == s;
  }

  /** `", ".join(parts)` */
  function Join(parts: seq<string>): (r: string)
  {
    if parts == [] then ""
    else if |parts| == 1 then parts[0]
    else parts[0] + ", " + Join(parts[1..])
  }

  /** `[x.strip() for x in s.split(",")]`, the parse Tentacles and Thermometer instances apply
      to the seekers' input: one part per comma-separated piece, in order. No part holds a
      comma or surrounding blanks, so stripping a part again changes nothing. */
  function SplitStrip(s: string): (parts: seq<string>)
    ensures |parts| == |Split(s, ',')|
    ensures forall k :: 0 <= k < |parts| ==> parts[k] == Strip(Split(s, ',')[k])
    ensures forall k {:trigger Strip(parts[k])} :: 0 <= k < |parts| ==>
      ',' !in parts[k] && Strip(parts[k]) == parts[k]
  {
    var pieces := Split(s, ',');
    seq(|pieces|, k requires 0 <= k < |pieces| => Strip(pieces[k]))
  }

  /** A second strip changes nothing. */
  lemma {:induction false} StripIdempotent(s: string)
    ensures Strip(Strip(s)) == Strip(s)
  {
    var t := Strip(s);
    if t != [] {
      assert !IsSpace(t[0]) && !IsSpace(t[|t| - 1]);
      assert LStrip(t) == t;
      assert RStrip(t) == t;
    }
  }

  /** A leading blank (the one `", ".join` puts after each comma) is dropped by strip. */
  lemma StripLeadingBlank(s: string)
    ensures Strip(" " + s) == Strip(s)
  {
    assert (" " + s)[1..] == s;
  }

  /** Splitting a string that starts with a comma-free prefix extends the first piece. */
  lemma {:induction false} SplitPrefix(a: string, b: string)
    requires ',' !in a
    ensures Split(a + b, ',') == [a + Split(b, ',')[0]] + Split(b, ',')[1..]
  {
    var sb := Split(b, ',');
    if a == [] {
      assert a + b == b;
      assert a + sb[0] == sb[0];
      assert [sb[0]] + sb[1..] == sb;
    } else {
      assert (a + b)[0] == a[0] && (a + b)[1..] == a[1..] + b;
      SplitPrefix(a[1..], b);
      var rest := Split(a[1..] + b, ',');
      assert rest[0] == a[1..] + sb[0];
      assert [a[0]] + (a[1..] + sb[0]) == a + sb[0];
    }
  }

  /** Each piece after the first carries the blank that `", ".join` put after its comma. */
  function Blanked(parts: seq<string>): (r: seq<string>)
    ensures |r| == |parts|
    ensures forall k :: 0 <= k < |parts| ==> r[k] == " " + parts[k]
  {
    seq(|parts|, k requires 0 <= k < |parts| => " " + parts[k])
  }

  /** Splitting a joined list of comma-free parts on "," gives the parts back, each but the
      first with the blank of its separator in front. */
  lemma {:induction false} SplitJoin(parts: seq<string>)
    requires |parts| >= 1
    requires forall k :: 0 <= k < |parts| ==> ',' !in parts[k]
    ensures Split(Join(parts), ',') == [parts[0]] + Blanked(parts[1..])
  {
    if |parts| == 1 {
      SplitPrefix(parts[0], "");
      assert parts[0] + "" == parts[0];
      assert Blanked(parts[1..]) == [];
    } else {
      var tail := Join(parts[1..]);
      SplitJoin(parts[1..]);
      var inner := Split(tail, ',');
      assert inner == [parts[1]] + Blanked(parts[2..]) by {
        assert parts[1..][1..] == parts[2..];
      }
      assert Join(parts) == parts[0] + ("," + (" " + tail));
      SplitPrefix(parts[0], "," + (" " + tail));
      assert ("," + (" " + tail))[1..] == " " + tail;
      assert Split("," + (" " + tail), ',') == [[]] + Split(" " + tail, ',');
      SplitPrefix(" ", tail);
      assert Split(" " + tail, ',') == [" " + parts[1]] + Blanked(parts[2..]);
      assert [" " + parts[1]] + Blanked(parts[2..]) == Blanked(parts[1..]);
      assert parts[0] + [] == parts[0];
    }
  }

  /** Re-parsing a joined list of already-parsed parts gives the parts back. */
  lemma {:induction false} SplitStripJoin(parts: seq<string>)
    requires |parts| >= 1
    requires forall k :: 0 <= k < |parts| ==> ',' !in parts[k] && Strip(parts[k]) == parts[k]
    ensures SplitStrip(Join(parts)) == parts
  {
    SplitJoin(parts);
    var parsed := SplitStrip(Join(parts));
    forall k | 0 <= k < |parts|
      ensures parsed[k] == parts[k]
    {
      StripBlanked(parts, k);
    }
  }

  /** Stripping each piece of the split undoes the blank the join put in front of it. */
  lemma StripBlanked(parts: seq<string>, k: nat)
    requires k < |parts|
    requires Strip(parts[k]) == parts[k]
    ensures Strip(([parts[0]] + Blanked(parts[1..]))[k]) == parts[k]
  {
    BlankedAt(parts, k);
    if k > 0 {
      StripLeadingBlank(parts[k]);
    }
  }

  /** The pieces of a split join: the first part, then each later part after its blank. */
  lemma BlankedAt(parts: seq<string>, k: nat)
    requires k < |parts|
    ensures ([parts[0]] + Blanked(parts[1..]))[k] == if k == 0 then parts[0] else " " + parts[k]
  {
    if k > 0 {
      assert ([parts[0]] + Blanked(parts[1..]))[k] == Blanked(parts[1..])[k - 1];
    }
  }

  /** The rendering round trip of Tentacles and Thermometer instances: parsing, joining with
      ", " and parsing again yields the first parse. */
  lemma ParseRenderParse(s: string)
    ensures SplitStrip(Join(SplitStrip(s))) == SplitStrip(s)
  {
    SplitStripJoin(SplitStrip(s));
  }

  function Digit(d: nat): (c: char)
    requires d < 10
    ensures '0' <= c <= '9' && c as int == '0' as int + d
  {
    ('0' as int + d) as char
  }

  /** Decimal rendering of a natural number, as `str(n)` or `f"{n}"` gives it. */
  function NatToString(n: nat): (s: string)
    ensures |s| >= 1
    ensures forall k :: 0 <= k < |s| ==> '0' <= s[k] <= '9'
    ensures n >= 10 <==> |s| >= 2
  {
    if n < 10 then [Digit(n)] else NatToString(n / 10) + [Digit(n % 10)]
  }

  /** Different numbers render differently. */
  lemma {:induction false} NatToStringInjective(m: nat, n: nat)
    ensures NatToString(m) == NatToString(n) ==> m == n
  {
    if NatToString(m) == NatToString(n) && m >= 10 && n >= 10 {
      var sm, sn := NatToString(m), NatToString(n);
      assert sm[|sm| - 1] == Digit(m % 10) && sn[|sn| - 1] == Digit(n % 10);
      assert sm[..|sm| - 1] == NatToString(m / 10);
      assert sn[..|sn| - 1] == NatToString(n / 10);
      NatToStringInjective(m / 10, n / 10);
    }
  }

  /** Decimal rendering of an integer, with a leading '-' when it is negative. */
  function IntToString(n: int): (s: string)
    ensures |s| >= 1
    ensures forall k :: 0 <= k < |s| ==> s[k] == '-' || '0' <= s[k] <= '9'
    ensures s[0] == '-' <==> n < 0
  {
    if n < 0 then "-" + NatToString(-n) else NatToString(n)
  }

  /** Different integers render differently. */
  lemma IntToStringInjective(m: int, n: int)
    ensures IntToString(m) == IntToString(n) ==> m == n
  {
    if IntToString(m) == IntToString(n) {
      if m < 0 {
        assert IntToString(m)[1..] == NatToString(-m);
        assert IntToString(n)[1..] == NatToString(-n);
        NatToStringInjective(-m, -n);
      } else {
        NatToStringInjective(m, n);
      }
    }
  }

  /** A string made of digits and '-' signs, as integers render. */
  predicate Numeric(s: string)
  {
    forall k :: 0 <= k < |s| ==> s[k] == '-' || '0' <= s[k] <= '9'
  }

  /** The length of the leading run of digits and '-' signs. */
  function NumeralPrefixLength(s: string): (n: nat)
    ensures n <= |s|
  {
    if s != [] && (s[0] == '-' || '0' <= s[0] <= '9') then 1 + NumeralPrefixLength(s[1..]) else 0
  }

  /** A numeral followed by a non-numeral character is read back whole. */
  lemma {:induction false} NumeralPrefixOf(x: string, rest: string)
    requires Numeric(x)
    requires rest != [] && rest[0] != '-' && !('0' <= rest[0] <= '9')
    ensures NumeralPrefixLength(x + rest) == |x|
  {
    if x == [] {
      assert x + rest == rest;
    } else {
      assert (x + rest)[1..] == x[1..] + rest;
      NumeralPrefixOf(x[1..], rest);
    }
  }

  /** Two numerals followed by the same marker, whose first character cannot occur in a
      numeral, can only be equal strings if the numerals and what follows are equal. */
  lemma NumeralsBeforeMarker(x: string, y: string, marker: string, u: string, v: string)
    requires Numeric(x) && Numeric(y)
    requires marker != [] && marker[0] != '-' && !('0' <= marker[0] <= '9')
    ensures x + marker + u == y + marker + v ==> x == y && u == v
  {
    if x + marker + u == y + marker + v {
      assert x + marker + u == x + (marker + u);
      assert y + marker + v == y + (marker + v);
      NumeralPrefixOf(x, marker + u);
      NumeralPrefixOf(y, marker + v);
      assert x == (x + marker + u)[..|x|];
      assert y == (y + marker + v)[..|y|];
      assert u == (x + marker + u)[|x| + |marker|..];
      assert v == (y + marker + v)[|y| + |marker|..];
    }
  }
}
