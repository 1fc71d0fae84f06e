/** The form-field escaper `make_safe`, and a decoder that reverses its escapes.

    `make_safe` keeps every character of SAFE_CHARS, replaces every other character by
    '%' followed by the lower-case hexadecimal of its code point (with no zero padding),
    and finally turns spaces into '+'. */
module FormEncoding {

  predicate IsLetterOrDigit(c: char) {
    ('a' <= c <= 'z') || ('A' <= c <= 'Z') || ('0' <= c <= '9')
  }

  /** Membership in SAFE_CHARS: the 26 lower-case and 26 upper-case ASCII letters, the ten
      digits, '_', '.', '-' and the space. */
  predicate IsSafe(c: char)
    ensures IsSafe(c) ==> c as int < 128 && c != '%' && c != '+' && c != '&' && c != '='
  {
    IsLetterOrDigit(c) || c == '_' || c == '.' || c == '-' || c == ' '
  }

  // ---------------------------------------------------------------------------
  // Hexadecimal numerals, as produced by Python's '%x' format

  /** The digits '%x' writes: 0-9 and a-f. */
  predicate IsLowerHexDigit(ch: char) {
    ('0' <= ch <= '9') || ('a' <= ch <= 'f')
  }

  /** One lower-case hexadecimal digit. */
  function HexDigit(d: nat): (ch: char)
    requires d < 16
    ensures IsLowerHexDigit(ch)
  {
    if d < 10 then ('0' as int + d) as char else ('a' as int + d - 10) as char
  }

  /** The '%x' rendering of n: lower case, no leading zeros, "0" for zero. */
  function Hex(n: nat): (r: string)
    ensures 1 <= |r| && (|r| == 1 <==> n < 16)
    ensures forall k :: 0 <= k < |r| ==> IsLowerHexDigit(r[k])
    decreases n
  {
    if n < 16 then [HexDigit(n)] else Hex(n / 16) + [HexDigit(n % 16)]
  }

  predicate IsHexDigit(ch: char) {
    ('0' <= ch <= '9') || ('a' <= ch <= 'f') || ('A' <= ch <= 'F')
  }

  /** The value of a hexadecimal digit (either case). */
  function HexValue(ch: char): (v: nat)
    requires IsHexDigit(ch)
    ensures v < 16
  {
    if '0' <= ch <= '9' then ch as int - '0' as int
    else if 'a' <= ch <= 'f' then ch as int - 'a' as int + 10
    else ch as int - 'A' as int + 10
  }

  /** The number a string of hexadecimal digits denotes. */
  function HexNumeral(ds: string): nat
    requires forall k :: 0 <= k < |ds| ==> IsHexDigit(ds[k])
  {
    if ds == [] then 0 else 16 * HexNumeral(ds[..|ds| - 1]) + HexValue(ds[|ds| - 1])
  }

  lemma HexDigitRoundTrip(d: nat)
    requires d < 16
    ensures IsLowerHexDigit(HexDigit(d)) && IsHexDigit(HexDigit(d)) && HexValue(HexDigit(d)) == d
    ensures IsSafe(HexDigit(d)) && HexDigit(d) != ' '
  {
  }

  /** Hex(n) is a well-formed lower-case numeral without leading zeros that denotes n. */
  lemma {:induction false} HexRoundTrip(n: nat)
    ensures 1 <= |Hex(n)|
    ensures forall k :: 0 <= k < |Hex(n)| ==>
              IsLowerHexDigit(Hex(n)[k]) && IsHexDigit(Hex(n)[k]) && IsSafe(Hex(n)[k]) && Hex(n)[k] != ' '
    ensures HexNumeral(Hex(n)) == n
    ensures |Hex(n)| == 1 <==> n < 16
    ensures |Hex(n)| > 1 ==> Hex(n)[0] != '0'
    decreases n
  {
    HexDigitRoundTrip(n % 16);
    if n >= 16 {
      HexRoundTrip(n / 16);
      var h := Hex(n);
      assert h[..|h| - 1] == Hex(n / 16);
      assert h[0] == Hex(n / 16)[0];
    }
  }

  /** Code points 16..255 give exactly two digits. */
  lemma HexTwoDigits(n: nat)
    requires 16 <= n < 256
    ensures Hex(n) == [HexDigit(n / 16), HexDigit(n % 16)]
  {
  }

  // ---------------------------------------------------------------------------
  // make_safe as the program writes it: escape each character, join, replace spaces

  /** The piece appended for one character. */
  function Escape(c: char): (r: string)
    ensures |r| >= 1 && (r[0] == '%' <==> !IsSafe(c))
    ensures |r| == 1 <==> IsSafe(c)
    ensures IsSafe(c) ==> r == [c]
  {
    if IsSafe(c) then [c] else ['%'] + Hex(c as int)
  }

  /** The list of pieces built by the loop. */
  function Pieces(s: string): seq<string> {
    seq(|s|, k requires 0 <= k < |s| => Escape(s[k]))
  }

  /** ''.join(pieces) */
  function Join(ps: seq<string>): string {
    if ps == [] then [] else ps[0] + Join(ps[1..])
  }

  /** str.replace(' ', '+') */
  function ReplaceSpaces(t: string): (r: string)
    ensures |r| == |t| && ' ' !in r
  {
    if t == [] then [] else [if t[0] == ' ' then '+' else t[0]] + ReplaceSpaces(t[1..])
  }

  /** The replacement acts position by position: a space becomes '+', anything else stays. */
  lemma {:induction false} ReplaceSpacesAt(t: string)
    ensures forall k :: 0 <= k < |t| ==> ReplaceSpaces(t)[k] == (if t[k] == ' ' then '+' else t[k])
    decreases |t|
  {
    if t != [] {
      ReplaceSpacesAt(t[1..]);
      forall k | 1 <= k < |t|
        ensures ReplaceSpaces(t)[k] == ReplaceSpaces(t[1..])[k - 1]
      {
      }
    }
  }

  /** The string make_safe returns. */
  function Encoded(s: string): (r: string)
    ensures ' ' !in r
    ensures s == [] ==> r == []
  {
    ReplaceSpaces(Join(Pieces(s)))
  }

  /** make_safe itself: the loop over the characters, then the join and the replace. */
  method MakeSafe(s: string) returns (r: string)
    ensures r == Encoded(s)
  {
    var pieces: seq<string> := [];
    for k := 0 to |s|
      invariant pieces == Pieces(s[..k])
    {
      if IsSafe(s[k]) {
        pieces := pieces + [[s[k]]];
      } else {
        pieces := pieces + [['%'] + Hex(s[k] as int)];
      }
    }
    assert s[..|s|] == s;
    r := ReplaceSpaces(Join(pieces));
  }

  // ---------------------------------------------------------------------------
  // The same map, one character at a time

  /** What one input character turns into in the output. */
  function FormChar(c: char): string {
    if c == ' ' then "+"
    else if IsSafe(c) then [c]
    else ['%'] + Hex(c as int)
  }

  lemma {:induction false} JoinAppend(a: seq<string>, b: seq<string>)
    ensures Join(a + b) == Join(a) + Join(b)
    decreases |a|
  {
    if a != [] {
      JoinAppend(a[1..], b);
      calc {
        Join(a + b);
        (a + b)[0] + Join((a + b)[1..]);
        { assert (a + b)[1..] == a[1..] + b; }
        a[0] + Join(a[1..] + b);
        a[0] + (Join(a[1..]) + Join(b));
      }
    } else {
      assert a + b == b;
    }
  }

  lemma {:induction false} ReplaceSpacesAppend(a: string, b: string)
    ensures ReplaceSpaces(a + b) == ReplaceSpaces(a) + ReplaceSpaces(b)
    decreases |a|
  {
    if a != [] {
      ReplaceSpacesAppend(a[1..], b);
      assert (a + b)[0] == a[0];
      assert (a + b)[1..] == a[1..] + b;
    } else {
      assert a + b == b;
    }
  }

  lemma {:induction false} ReplaceSpacesNoSpace(t: string)
    requires ' ' !in t
    ensures ReplaceSpaces(t) == t
    decreases |t|
  {
    if t != [] {
      ReplaceSpacesNoSpace(t[1..]);
    }
  }

  lemma EscapeThenReplace(c: char)
    ensures ReplaceSpaces(Escape(c)) == FormChar(c)
  {
    if !IsSafe(c) {
      HexRoundTrip(c as int);
      ReplaceSpacesNoSpace(['%'] + Hex(c as int));
    }
  }

  /** make_safe works character by character: its output on c + s is FormChar(c) followed by
      its output on s. */
  lemma EncodedCons(c: char, s: string)
    ensures Encoded([c] + s) == FormChar(c) + Encoded(s)
  {
    assert Pieces([c] + s) == [Escape(c)] + Pieces(s);
    JoinAppend([Escape(c)], Pieces(s));
    assert Join(Pieces([c] + s)) == Escape(c) + Join(Pieces(s));
    ReplaceSpacesAppend(Escape(c), Join(Pieces(s)));
    EscapeThenReplace(c);
  }

  // ---------------------------------------------------------------------------
  // Properties of the output

  /** The characters make_safe can produce. */
  predicate IsOutputChar(ch: char) {
    (IsSafe(ch) && ch != ' ') || ch == '+' || ch == '%'
  }

  lemma FormCharAlphabet(c: char)
    ensures 1 <= |FormChar(c)|
    ensures forall k :: 0 <= k < |FormChar(c)| ==> IsOutputChar(FormChar(c)[k])
  {
    HexRoundTrip(c as int);
  }

  /** Every output character is a letter, digit, '_', '.', '-', '+' or '%', and the output is
      never shorter than the input. */
  lemma {:induction false} EncodedAlphabet(s: string)
    ensures |Encoded(s)| >= |s|
    ensures forall k :: 0 <= k < |Encoded(s)| ==> IsOutputChar(Encoded(s)[k])
    decreases |s|
  {
    if s != [] {
      EncodedCons(s[0], s[1..]);
      assert [s[0]] + s[1..] == s;
      EncodedAlphabet(s[1..]);
      FormCharAlphabet(s[0]);
      var e := Encoded(s);
      forall k | 0 <= k < |e|
        ensures IsOutputChar(e[k])
      {
        if k >= |FormChar(s[0])| {
          assert e[k] == Encoded(s[1..])[k - |FormChar(s[0])|];
        }
      }
    }
  }

  /** make_safe never shortens its input. */
  lemma EncodedLength(s: string)
    ensures |Encoded(s)| >= |s|
  {
    EncodedAlphabet(s);
  }

  predicate IsAscii(s: string) {
    forall k :: 0 <= k < |s| ==> s[k] as int < 128
  }

  /** In particular the output has no space, no '&' and no '=', and it is plain ASCII. */
  lemma EncodedSeparators(s: string)
    ensures ' ' !in Encoded(s) && '&' !in Encoded(s) && '=' !in Encoded(s)
    ensures IsAscii(Encoded(s))
  {
    EncodedAlphabet(s);
  }

  /** make_safe leaves strings of letters, digits, '_', '.' and '-' unchanged. */
  lemma {:induction false} EncodedIdentity(s: string)
    requires forall k :: 0 <= k < |s| ==> IsSafe(s[k]) && s[k] != ' '
    ensures Encoded(s) == s
    decreases |s|
  {
    if s != [] {
      EncodedCons(s[0], s[1..]);
      assert [s[0]] + s[1..] == s;
      EncodedIdentity(s[1..]);
    }
  }

  // ---------------------------------------------------------------------------
  // Decoding: the escapes read back as code points

  /** '+' is a space, '%' with two hexadecimal digits is the character with that code,
      anything else stands for itself. This agrees with an application/x-www-form-urlencoded
      parser only for escapes below %80: such a parser decodes the bytes as UTF-8. */
  function Decode(t: string): string
    decreases |t|
  {
    if t == [] then []
    else if t[0] == '+' then [' '] + Decode(t[1..])
    else if t[0] == '%' && |t| >= 3 && IsHexDigit(t[1]) && IsHexDigit(t[2]) then
      [(16 * HexValue(t[1]) + HexValue(t[2])) as char] + Decode(t[3..])
    else [t[0]] + Decode(t[1..])
  }

  /** The characters make_safe encodes recoverably: code points 16 to 255, whose escapes have
      exactly two digits. */
  predicate Recoverable(c: char) {
    16 <= c as int < 256
  }

  lemma DecodeFormChar(c: char, rest: string)
    requires Recoverable(c)
    ensures Decode(FormChar(c) + rest) == [c] + Decode(rest)
  {
    var t := FormChar(c) + rest;
    if c == ' ' {
      assert t[1..] == rest;
    } else if IsSafe(c) {
      assert t[0] == c && t[1..] == rest;
    } else {
      var n := c as int;
      HexTwoDigits(n);
      HexDigitRoundTrip(n / 16);
      HexDigitRoundTrip(n % 16);
      assert t == ['%', HexDigit(n / 16), HexDigit(n % 16)] + rest;
      assert t[3..] == rest;
    }
  }

  /** Round trip: the decoder recovers every string whose characters all have code points
      from 16 to 255. */
  lemma {:induction false} DecodeEncoded(s: string)
    requires forall k :: 0 <= k < |s| ==> Recoverable(s[k])
    ensures Decode(Encoded(s)) == s
    decreases |s|
  {
    if s != [] {
      EncodedCons(s[0], s[1..]);
      assert [s[0]] + s[1..] == s;
      DecodeFormChar(s[0], Encoded(s[1..]));
      DecodeEncoded(s[1..]);
    }
  }

  /** A one-character string encodes to that character's piece. */
  lemma EncodedSingle(c: char)
    ensures Encoded([c]) == FormChar(c)
  {
    EncodedCons(c, []);
    assert [c] + [] == [c];
  }

  lemma EncodedLowPair()
    ensures Encoded("\U{1}a") == "%1a"
  {
    assert FormChar('\U{1}') == "%1" by {
      assert Hex(1) == "1";
    }
    EncodedSingle('a');
    EncodedCons('\U{1}', "a");
    assert "\U{1}a" == ['\U{1}'] + "a";
  }

  lemma EncodedLowSingle()
    ensures Encoded("\U{1A}") == "%1a"
  {
    assert FormChar('\U{1A}') == "%1a" by {
      assert Hex(0x1A) == Hex(1) + [HexDigit(10)];
    }
    EncodedSingle('\U{1A}');
    assert "\U{1A}" == ['\U{1A}'];
  }

  /** Without zero padding the escape is ambiguous: U+0001 followed by 'a' and the single
      character U+001A both give "%1a", so make_safe is not injective and the decoder reads
      both back as U+001A. */
  lemma EncodedNotInjective()
    ensures Encoded("\U{1}a") == Encoded("\U{1A}") == "%1a"
    ensures "\U{1}a" != "\U{1A}"
    ensures Decode("%1a") == "\U{1A}"
  {
    EncodedLowPair();
    EncodedLowSingle();
    assert "%1a"[3..] == "";
  }

  /** From U+0100 on the escape has three or more digits and the decoder reads only two: U+0100
      becomes "%100", which decodes to U+0010 followed by '0'. */
  lemma DecodeLosesWideChars()
    ensures Encoded("\U{100}") == "%100"
    ensures Decode("%100") == "\U{10}0" != "\U{100}"
  {
    assert Hex(0x100) == Hex(1) + [HexDigit(0)] + [HexDigit(0)] by {
      assert Hex(0x10) == Hex(1) + [HexDigit(0)];
    }
    assert FormChar('\U{100}') == "%100";
    EncodedSingle('\U{100}');
    assert "\U{100}" == ['\U{100}'];
    assert "%100"[3..] == "0";
  }

  /** Code points from 256 on have escapes of three or more digits. */
  lemma {:induction false} HexAtLeastThree(n: nat)
    requires n >= 256
    ensures |Hex(n)| >= 3
  {
    assert n / 16 >= 16;
  }

  /** From U+0100 on the decoder reads only the first two of the escape's digits, so it never
      gives the character back. */
  lemma WideCharNotRecovered(c: char)
    requires c as int >= 256
    ensures Decode(Encoded([c])) != [c]
  {
    EncodedSingle(c);
    HexAtLeastThree(c as int);
    HexRoundTrip(c as int);
    var h := Hex(c as int);
    var t := ['%'] + h;
    assert Encoded([c]) == t;
    assert Decode(t) == [(16 * HexValue(h[0]) + HexValue(h[1])) as char] + Decode(t[3..]);
  }

  /** Below U+0010 the escape has one digit, which the decoder does not take as an escape. */
  lemma LowCharNotRecovered(c: char)
    requires c as int < 16
    ensures Decode(Encoded([c])) != [c]
  {
    EncodedSingle(c);
    var t := ['%', HexDigit(c as int)];
    assert Encoded([c]) == t;
    assert Decode(t) == ['%'] + Decode(t[1..]);
  }

  /** For a single character the round trip holds exactly for code points 16 to 255. */
  lemma SingleCharRoundTrip(c: char)
    ensures Decode(Encoded([c])) == [c] <==> Recoverable(c)
  {
    if Recoverable(c) {
      DecodeEncoded([c]);
    } else if c as int < 16 {
      LowCharNotRecovered(c);
    } else {
      WideCharNotRecovered(c);
    }
  }
}
