/**
  base64.StdEncoding (section 4 of RFC 4648): three bytes become four characters, the last group
  is padded with '='. A Go string is a byte sequence; a char below 256 stands for one byte.
 */
module Base64 {
  import opened Wrappers

  predicate IsBytes(s: string) {
    forall k :: 0 <= k < |s| ==> s[k] as int < 256
  }

  /** The alphabet of table 1 of RFC 4648. */
  function Symbol(n: int): (c: char)
    requires 0 <= n < 64
    ensures SymbolValue(c) == n
  {
    if n < 26 then (n + 65) as char
    else if n < 52 then (n + 71) as char
    else if n < 62 then (n - 4) as char
    else if n == 62 then '+'
    else '/'
  }

  /** The value of an alphabet character, -1 for any other. */
  function SymbolValue(c: char): (n: int)
    ensures -1 <= n < 64
  {
    if 'A' <= c <= 'Z' then c as int - 65
    else if 'a' <= c <= 'z' then c as int - 71
    else if '0' <= c <= '9' then c as int + 4
    else if c == '+' then 62
    else if c == '/' then 63
    else -1
  }

  /** EncodeToString */
  function Encode(b: string): (s: string)
    requires IsBytes(b)
    ensures s == "" <==> b == ""
  {
    if b == "" then ""
    else
      var b0 := b[0] as int;
      if |b| == 1 then
        [Symbol(b0 / 4), Symbol(b0 % 4 * 16), '=', '=']
      else
        var b1 := b[1] as int;
        if |b| == 2 then
          [Symbol(b0 / 4), Symbol(b0 % 4 * 16 + b1 / 16), Symbol(b1 % 16 * 4), '=']
        else
          var b2 := b[2] as int;
          [Symbol(b0 / 4), Symbol(b0 % 4 * 16 + b1 / 16), Symbol(b1 % 16 * 4 + b2 / 64), Symbol(b2 % 64)]
          + Encode(b[3..])
  }

  /** The decoder skips line breaks anywhere in its input. */
  function StripLineBreaks(s: string): string {
    if s == "" then ""
    else if s[0] == '\r' || s[0] == '\n' then StripLineBreaks(s[1..])
    else [s[0]] + StripLineBreaks(s[1..])
  }

  /** The bytes of one group of four values, as far as the group is not padding. */
  function GroupBytes(v0: int, v1: int, v2: int, v3: int): (b: string)
    requires 0 <= v0 < 64 && 0 <= v1 < 64 && 0 <= v2 < 64 && 0 <= v3 < 64
    ensures |b| == 3
  {
    [(v0 * 4 + v1 / 16) as char, (v1 % 16 * 16 + v2 / 4) as char, (v2 % 4 * 64 + v3) as char]
  }

  function DecodeGroups(s: string): Option<string> {
    if s == "" then Some("")
    else if |s| < 4 then None
    else
      var v0, v1, v2, v3 := SymbolValue(s[0]), SymbolValue(s[1]), SymbolValue(s[2]), SymbolValue(s[3]);
      if v0 < 0 || v1 < 0 then None
      else if v2 >= 0 && v3 >= 0 then
        var rest := DecodeGroups(s[4..]);
        if rest.None? then None else Some(GroupBytes(v0, v1, v2, v3) + rest.value)
      else if |s| > 4 || s[3] != '=' then None
      else if v2 >= 0 then Some(GroupBytes(v0, v1, v2, 0)[..2])
      else if s[2] == '=' then Some(GroupBytes(v0, v1, 0, 0)[..1])
      else None
  }

  /** DecodeString; None is a CorruptInputError. */
  function Decode(s: string): Option<string> {
    DecodeGroups(StripLineBreaks(s))
  }

  lemma {:induction false} EncodeHasNoLineBreaks(b: string)
    requires IsBytes(b)
    ensures StripLineBreaks(Encode(b)) == Encode(b)
  {
    if b != "" {
      var s := Encode(b);
      var rest := if |b| > 3 then Encode(b[3..]) else "";
      if |b| > 3 {
        EncodeHasNoLineBreaks(b[3..]);
      }
      assert s == [s[0], s[1], s[2], s[3]] + rest;
      StripFour(s[0], s[1], s[2], s[3], rest);
    }
  }

  lemma StripOne(c: char, s: string)
    requires c == '=' || SymbolValue(c) >= 0
    ensures StripLineBreaks([c] + s) == [c] + StripLineBreaks(s)
  {
    assert ([c] + s)[1..] == s;
  }

  lemma StripFour(c0: char, c1: char, c2: char, c3: char, s: string)
    requires forall c :: c in [c0, c1, c2, c3] ==> c == '=' || SymbolValue(c) >= 0
    ensures StripLineBreaks([c0, c1, c2, c3] + s) == [c0, c1, c2, c3] + StripLineBreaks(s)
  {
    hide StripLineBreaks, SymbolValue;
    assert c0 in [c0, c1, c2, c3] && c1 in [c0, c1, c2, c3] && c2 in [c0, c1, c2, c3] && c3 in [c0, c1, c2, c3];
    var s3 := [c3] + s;
    var s2 := [c2] + s3;
    var s1 := [c1] + s2;
    var r := StripLineBreaks(s);
    assert StripLineBreaks(s3) == [c3] + r by { StripOne(c3, s); }
    assert StripLineBreaks(s2) == [c2] + ([c3] + r) by { StripOne(c2, s3); }
    assert StripLineBreaks(s1) == [c1] + ([c2] + ([c3] + r)) by { StripOne(c1, s2); }
    assert StripLineBreaks([c0] + s1) == [c0] + ([c1] + ([c2] + ([c3] + r))) by { StripOne(c0, s1); }
    assert [c0] + s1 == [c0, c1, c2, c3] + s;
  }

  lemma GroupRoundTrip(b0: int, b1: int, b2: int)
    requires 0 <= b0 < 256 && 0 <= b1 < 256 && 0 <= b2 < 256
    ensures GroupBytes(b0 / 4, b0 % 4 * 16 + b1 / 16, b1 % 16 * 4 + b2 / 64, b2 % 64)
         == [b0 as char, b1 as char, b2 as char]
  {
    assert (b0 % 4 * 16 + b1 / 16) / 16 == b0 % 4;
    assert (b0 % 4 * 16 + b1 / 16) % 16 == b1 / 16;
    assert (b1 % 16 * 4 + b2 / 64) / 4 == b1 % 16;
    assert (b1 % 16 * 4 + b2 / 64) % 4 == b2 / 64;
  }

  lemma DecodeFullGroup(v0: int, v1: int, v2: int, v3: int, rest: string)
    requires 0 <= v0 < 64 && 0 <= v1 < 64 && 0 <= v2 < 64 && 0 <= v3 < 64
    requires DecodeGroups(rest).Some?
    ensures DecodeGroups([Symbol(v0), Symbol(v1), Symbol(v2), Symbol(v3)] + rest)
         == Some(GroupBytes(v0, v1, v2, v3) + DecodeGroups(rest).value)
  {
    var s := [Symbol(v0), Symbol(v1), Symbol(v2), Symbol(v3)] + rest;
    assert s[4..] == rest;
  }

  lemma DecodeShortGroups(b0: int, b1: int)
    requires 0 <= b0 < 256 && 0 <= b1 < 256
    ensures DecodeGroups([Symbol(b0 / 4), Symbol(b0 % 4 * 16), '=', '=']) == Some([b0 as char])
    ensures DecodeGroups([Symbol(b0 / 4), Symbol(b0 % 4 * 16 + b1 / 16), Symbol(b1 % 16 * 4), '='])
         == Some([b0 as char, b1 as char])
  {
    assert GroupBytes(b0 / 4, b0 % 4 * 16, 0, 0)[..1] == [b0 as char] by { GroupRoundTrip(b0, 0, 0); }
    assert GroupBytes(b0 / 4, b0 % 4 * 16 + b1 / 16, b1 % 16 * 4, 0)[..2] == [b0 as char, b1 as char] by {
      GroupRoundTrip(b0, b1, 0);
    }
  }

  lemma ShortRoundTrip(b: string)
    requires IsBytes(b) && 0 < |b| < 3
    ensures DecodeGroups(Encode(b)) == Some(b)
  {
    hide DecodeGroups, Symbol, SymbolValue, GroupBytes;
    DecodeShortGroups(b[0] as int, if |b| == 2 then b[1] as int else 0);
    assert b == if |b| == 1 then [b[0]] else [b[0], b[1]];
  }

  lemma EncodeFullGroup(b: string)
    requires IsBytes(b) && |b| >= 3
    ensures var b0, b1, b2 := b[0] as int, b[1] as int, b[2] as int;
            Encode(b) == [Symbol(b0 / 4), Symbol(b0 % 4 * 16 + b1 / 16), Symbol(b1 % 16 * 4 + b2 / 64), Symbol(b2 % 64)]
                         + Encode(b[3..])
  {
  }

  lemma FullRoundTrip(b: string)
    requires IsBytes(b) && |b| >= 3 && DecodeGroups(Encode(b[3..])) == Some(b[3..])
    ensures DecodeGroups(Encode(b)) == Some(b)
  {
    hide Encode, DecodeGroups, Symbol, SymbolValue, GroupBytes;
    var b0, b1, b2 := b[0] as int, b[1] as int, b[2] as int;
    EncodeFullGroup(b);
    DecodeFullGroup(b0 / 4, b0 % 4 * 16 + b1 / 16, b1 % 16 * 4 + b2 / 64, b2 % 64, Encode(b[3..]));
    GroupRoundTrip(b0, b1, b2);
    assert b == [b[0], b[1], b[2]] + b[3..];
  }

  lemma {:induction false} GroupsRoundTrip(b: string)
    requires IsBytes(b)
    ensures DecodeGroups(Encode(b)) == Some(b)
  {
    if b == "" {
    } else if |b| < 3 {
      ShortRoundTrip(b);
    } else {
      hide Encode, DecodeGroups;
      GroupsRoundTrip(b[3..]);
      FullRoundTrip(b);
    }
  }

  /** Decoding undoes encoding for every byte string, through all three padding cases. */
  lemma RoundTrip(b: string)
    requires IsBytes(b)
    ensures Decode(Encode(b)) == Some(b)
  {
    EncodeHasNoLineBreaks(b);
    GroupsRoundTrip(b);
  }

  // What the encoding is, apart from being undone by the decoder -------------------------------------

  /** `n` characters in a row. */
  function Run(first: char, n: nat): (s: string)
    requires first as int + n <= 128
  {
    seq(n, k requires 0 <= k < n => (first as int + k) as char)
  }

  const ALPHABET := Run('A', 26) + Run('a', 26) + Run('0', 10) + "+/"

  lemma SymbolsAscend(n: int)
    requires 0 <= n < 64
    ensures |ALPHABET| == 64 && Symbol(n) == ALPHABET[n]
  {
  }

  lemma TableOne(c: char)
    ensures SymbolValue(c) >= 0 <==> c in ALPHABET
    ensures SymbolValue(c) >= 0 ==> ALPHABET[SymbolValue(c)] == c
  {
    if SymbolValue(c) >= 0 {
      SymbolsAscend(SymbolValue(c));
    }
    if n :| 0 <= n < |ALPHABET| && ALPHABET[n] == c {
      SymbolsAscend(n);
    }
  }

  /** Three bytes and the four characters they become are one 24-bit number. */
  lemma SameBits(b: string)
    requires IsBytes(b) && |b| >= 3
    ensures |Encode(b)| >= 4 && Encode(b)[4..] == Encode(b[3..])
    ensures var s := Encode(b);
            ((SymbolValue(s[0]) * 64 + SymbolValue(s[1])) * 64 + SymbolValue(s[2])) * 64 + SymbolValue(s[3])
            == (b[0] as int * 256 + b[1] as int) * 256 + b[2] as int
  {
    hide SymbolValue;
    var b0, b1, b2 := b[0] as int, b[1] as int, b[2] as int;
    EncodeFullGroup(b);
  }

  /** The examples of section 10 of RFC 4648 that end a text: padding by two, by one, and not at all. */
  lemma Section10()
    ensures Encode("f") == "Zg==" && Encode("fo") == "Zm8=" && Encode("foo") == "Zm9v"
  {
  }

  /** Groups of four characters of the alphabet, the last of which may end in one or two paddings. */
  predicate IsEncoded(t: string) {
    var n := |t|;
    && n % 4 == 0
    && (forall k :: 0 <= k < n - 2 ==> t[k] in ALPHABET)
    && (n > 0 ==> (t[n - 2] in ALPHABET && (t[n - 1] in ALPHABET || t[n - 1] == '=')) || t[n - 2..] == "==")
  }

  lemma {:induction false} GroupsDecode(t: string)
    ensures DecodeGroups(t).Some? <==> IsEncoded(t)
  {
    if |t| >= 4 {
      TableOne(t[0]);
      TableOne(t[1]);
      TableOne(t[2]);
      TableOne(t[3]);
      hide SymbolValue;
      GroupsDecode(t[4..]);
      FirstGroup(t);
    }
  }

  lemma FirstGroup(t: string)
    requires |t| >= 4
    ensures '=' !in ALPHABET
    ensures IsEncoded(t) <==>
            t[0] in ALPHABET && t[1] in ALPHABET
            && if |t| == 4 then (t[2] in ALPHABET && (t[3] in ALPHABET || t[3] == '=')) || (t[2] == '=' && t[3] == '=')
               else t[2] in ALPHABET && t[3] in ALPHABET && IsEncoded(t[4..])
  {
    hide *;
    NoPadding();
    if |t| == 4 {
      OneGroup(t);
    } else {
      MoreGroups(t);
    }
  }

  lemma NoPadding()
    ensures '=' !in ALPHABET
  {
  }

  lemma OneGroup(t: string)
    requires |t| == 4
    ensures IsEncoded(t) <==>
            t[0] in ALPHABET && t[1] in ALPHABET
            && ((t[2] in ALPHABET && (t[3] in ALPHABET || t[3] == '=')) || (t[2] == '=' && t[3] == '='))
  {
    assert t[2..] == "==" <==> t[2] == '=' && t[3] == '=';
  }

  lemma MoreGroups(t: string)
    requires |t| > 4
    ensures IsEncoded(t) <==>
            t[0] in ALPHABET && t[1] in ALPHABET && t[2] in ALPHABET && t[3] in ALPHABET && IsEncoded(t[4..])
  {
    var rest := t[4..];
    assert forall k :: 0 <= k < |rest| ==> rest[k] == t[4 + k];
    assert |t| % 4 == 0 <==> |rest| % 4 == 0;
    if |t| % 4 == 0 {
      assert |rest| >= 4 && rest[|rest| - 2..] == t[|t| - 2..];
      if IsEncoded(rest) && t[0] in ALPHABET && t[1] in ALPHABET && t[2] in ALPHABET && t[3] in ALPHABET {
        assert forall k :: 4 <= k < |t| - 2 ==> t[k] == rest[k - 4];
      }
    }
  }

  lemma {:induction false} OnlyLineBreaksGo(s: string, c: char)
    ensures c in StripLineBreaks(s) <==> c in s && c != '\r' && c != '\n'
  {
    if s != "" {
      OnlyLineBreaksGo(s[1..], c);
      assert s == [s[0]] + s[1..];
    }
  }

  lemma EncodedChars(t: string, k: nat)
    requires IsEncoded(t) && k < |t|
    ensures t[k] in ALPHABET || t[k] == '='
  {
    if k >= |t| - 2 {
      assert t[|t| - 2..] == "==" ==> t[|t| - 2..][k - (|t| - 2)] == '=';
    }
  }

  /** A character no encoding has. */
  predicate Foreign(c: char) {
    c !in ALPHABET && c != '=' && c != '\r' && c != '\n'
  }

  /** A text is decoded exactly when, line breaks aside, it is an encoding; so no foreign character is accepted. */
  lemma DecodesExactly(s: string)
    ensures Decode(s).Some? <==> IsEncoded(StripLineBreaks(s))
    ensures forall c :: c in s && Foreign(c) ==> Decode(s) == None
  {
    hide IsEncoded, StripLineBreaks, DecodeGroups;
    GroupsDecode(StripLineBreaks(s));
    forall c | c in s && Foreign(c) ensures !IsEncoded(StripLineBreaks(s)) {
      OnlyLineBreaksGo(s, c);
      var t := StripLineBreaks(s);
      var k :| 0 <= k < |t| && t[k] == c;
      if IsEncoded(t) {
        EncodedChars(t, k);
      }
    }
  }
}
