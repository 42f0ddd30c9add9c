/**
  The cursor codec (sharechat/message.go): base64 over "ID,timestamp". The main result says for
  exactly which cursors a decoded encoding names the same message.
 */
module Cursor {
  import opened Wrappers
  import opened Rfc3339
  import opened Messages
  import Base64

  /** What holds of every cursor value: Sent is a time.Time and the ID is a string of bytes. */
  predicate WellFormed(c: MessageCursor) {
    Coherent(c.sent) && Base64.IsBytes(c.id)
  }

  function Concat(c: MessageCursor): (s: string)
    requires WellFormed(c)
    ensures Base64.IsBytes(s) && s != ""
  {
    FormatIsBytes(c.sent.civil);
    c.id + "," + Format(c.sent.civil)
  }

  lemma FormatIsBytes(c: Civil)
    requires ValidCivil(c)
    ensures Base64.IsBytes(Format(c)) && ',' !in Format(c)
  {
    FormatChars(c);
    var printed := Format(c);
    forall k | 0 <= k < |printed| ensures printed[k] as int < 256 && printed[k] != ',' {
      assert TimeChar(printed[k]);
    }
  }

  /** MessageCursor.Encode */
  function Encode(c: MessageCursor): (s: string)
    requires WellFormed(c)
    ensures s == "" <==> c.IsEmpty()
  {
    if c.IsEmpty() then "" else Base64.Encode(Concat(c))
  }

  /** strings.Split(s, ",") */
  function Split(s: string): (parts: seq<string>)
    ensures |parts| >= 1
  {
    if s == "" then [""]
    else if s[0] == ',' then [""] + Split(s[1..])
    else
      var rest := Split(s[1..]);
      [[s[0]] + rest[0]] + rest[1..]
  }

  datatype DecodeError = CorruptInput | InvalidFormat | InvalidTime

  /** The receiver as the call leaves it, and the error (None when nil). */
  datatype Decoded = Decoded(cursor: MessageCursor, error: Option<DecodeError>)

  /**
    MessageCursor.DecodeFromString. An empty string leaves the receiver alone; a bad timestamp is
    reported after the ID has been assigned and Sent has been reset.
   */
  function DecodeFromString(receiver: MessageCursor, s: string): Decoded {
    if s == "" then Decoded(receiver, None)
    else
      match Base64.Decode(s)
      case None => Decoded(receiver, Some(CorruptInput))
      case Some(decoded) =>
        var parts := Split(decoded);
        if |parts| != 2 then Decoded(receiver, Some(InvalidFormat))
        else
          match Parse(parts[1])
          case None => Decoded(MessageCursor(parts[0], ZERO_TIME), Some(InvalidTime))
          case Some(t) => Decoded(MessageCursor(parts[0], t), None)
  }

  lemma {:induction false} SplitConcat(a: string, b: string)
    ensures |Split(a + "," + b)| == |Split(a)| + |Split(b)|
    ensures ',' !in a ==> Split(a + "," + b) == [a] + Split(b)
  {
    var s := a + "," + b;
    if a == "" {
      assert s[1..] == b;
    } else {
      assert s[1..] == a[1..] + "," + b;
      SplitConcat(a[1..], b);
      assert [a[0]] + a[1..] == a;
    }
  }

  lemma {:induction false} SplitWithoutComma(s: string)
    requires ',' !in s
    ensures Split(s) == [s]
  {
    if s != "" {
      SplitWithoutComma(s[1..]);
      assert [s[0]] + s[1..] == s;
    }
  }

  lemma {:induction false} SplitWithComma(s: string)
    requires ',' in s
    ensures |Split(s)| >= 2
  {
    if s[0] != ',' {
      assert ',' in s[1..];
      SplitWithComma(s[1..]);
    }
  }

  /** What a caller can check of a cursor before handing it out. */
  predicate Portable(c: MessageCursor) {
    c.IsEmpty() || (',' !in c.id && 0 <= c.sent.civil.year <= 9999 && c.sent.civil.offset % 60 == 0)
  }

  /** Decoding into a zero cursor gives the same ID and instant without error. */
  predicate RoundTrips(c: MessageCursor)
    requires WellFormed(c)
  {
    var d := DecodeFromString(EMPTY_CURSOR, Encode(c));
    d.error.None? && d.cursor.id == c.id && d.cursor.sent.instant == c.sent.instant
  }

  lemma DecodeEncode(c: MessageCursor, receiver: MessageCursor)
    requires WellFormed(c) && !c.IsEmpty()
    ensures var d := DecodeFromString(receiver, Encode(c));
            if ',' in c.id then d == Decoded(receiver, Some(InvalidFormat))
            else if !(0 <= c.sent.civil.year <= 9999) then
              d == Decoded(MessageCursor(c.id, ZERO_TIME), Some(InvalidTime))
            else
              var read := ReadBack(c.sent.civil);
              d == Decoded(MessageCursor(c.id, Time(InstantOf(read), read)), None)
  {
    var printed := Format(c.sent.civil);
    FormatIsBytes(c.sent.civil);
    Base64.RoundTrip(Concat(c));
    SplitConcat(c.id, printed);
    SplitWithoutComma(printed);
    if ',' in c.id {
      SplitWithComma(c.id);
    }
    FormatParse(c.sent.civil);
  }

  /** The codec is faithful exactly on portable cursors. */
  lemma RoundTripExactly(c: MessageCursor)
    requires WellFormed(c)
    ensures RoundTrips(c) <==> Portable(c)
  {
    if !c.IsEmpty() {
      DecodeEncode(c, EMPTY_CURSOR);
      InstantOfReadBack(c.sent.civil);
      WholeMinutes(c.sent.civil.offset);
    }
  }

  lemma InstantOfReadBack(c: Civil)
    ensures InstantOf(ReadBack(c)) == InstantOf(c) + (c.offset - OffsetMinutes(c.offset) * 60) * NANOS_PER_SECOND
  {
  }

  /** A portable non-empty cursor comes back whole, zone included. */
  lemma PortableRoundTrip(c: MessageCursor)
    requires WellFormed(c)
    requires Portable(c) && !c.IsEmpty()
    ensures DecodeFromString(EMPTY_CURSOR, Encode(c)) == Decoded(c, None)
  {
    DecodeEncode(c, EMPTY_CURSOR);
    WholeMinutes(c.sent.civil.offset);
    assert ReadBack(c.sent.civil) == c.sent.civil;
  }

  const YEAR_10000 := Civil(10000, 1, 1, 0, 0, 0, 0, 0)
  const ODD_OFFSET := Civil(2021, 10, 14, 12, 24, 41, 0, 1)

  /** A comma in the ID: refused. */
  lemma CommaIsRefused()
    ensures var c := MessageCursor("a,b", ZERO_TIME);
            WellFormed(c) && DecodeFromString(EMPTY_CURSOR, Encode(c)).error == Some(InvalidFormat)
  {
    hide DecodeFromString, Encode;
    var c := MessageCursor("a,b", ZERO_TIME);
    assert DaysBeforeMonth(1, 1) == 0;
    assert c.id[1] == ',';
    DecodeEncode(c, EMPTY_CURSOR);
  }

  /** A fifth digit in the year: refused, with the ID already assigned. */
  lemma LongYearIsRefused()
    ensures var c := MessageCursor("a", Time(InstantOf(YEAR_10000), YEAR_10000));
            && WellFormed(c)
            && DecodeFromString(EMPTY_CURSOR, Encode(c)) == Decoded(MessageCursor("a", ZERO_TIME), Some(InvalidTime))
  {
    hide DecodeFromString, Encode, InstantOf;
    DecodeEncode(MessageCursor("a", Time(InstantOf(YEAR_10000), YEAR_10000)), EMPTY_CURSOR);
  }

  /** A second in the offset: accepted, and one second off. */
  lemma OffsetSecondIsLost()
    ensures var c := MessageCursor("a", Time(InstantOf(ODD_OFFSET), ODD_OFFSET));
            && WellFormed(c)
            && DecodeFromString(EMPTY_CURSOR, Encode(c)).error == None
            && DecodeFromString(EMPTY_CURSOR, Encode(c)).cursor.sent.instant == c.sent.instant + NANOS_PER_SECOND
  {
    InstantOfReadBack(ODD_OFFSET);
    hide DecodeFromString, Encode, InstantOf;
    DecodeEncode(MessageCursor("a", Time(InstantOf(ODD_OFFSET), ODD_OFFSET)), EMPTY_CURSOR);
  }

  // Strings that hold no cursor -----------------------------------------------------------------------

  /** A string that is no base64 text, such as one with a foreign character, is refused and changes nothing. */
  lemma CorruptIsRefused(receiver: MessageCursor, s: string)
    requires s != ""
    ensures DecodeFromString(receiver, s).error == Some(CorruptInput) <==>
            !Base64.IsEncoded(Base64.StripLineBreaks(s))
    ensures forall c :: c in s && Base64.Foreign(c) ==>
              DecodeFromString(receiver, s) == Decoded(receiver, Some(CorruptInput))
    ensures DecodeFromString(receiver, s).error == Some(CorruptInput) ==>
        DecodeFromString(receiver, s).cursor == receiver
    ensures DecodeFromString(receiver, "") == Decoded(receiver, None)
  {
    hide Base64.Decode, Base64.IsEncoded, Base64.Foreign, Split, Parse;
    Base64.DecodesExactly(s);
  }

  lemma {:induction false} SplitCounts(s: string)
    ensures |Split(s)| == multiset(s)[','] + 1
  {
    if s != "" {
      SplitCounts(s[1..]);
      assert s == [s[0]] + s[1..];
    }
  }

  /** A text without exactly one comma is refused and changes nothing. */
  lemma MalformedIsRefused(receiver: MessageCursor, s: string)
    requires s != "" && Base64.Decode(s).Some?
    ensures DecodeFromString(receiver, s).error == Some(InvalidFormat) <==>
            multiset(Base64.Decode(s).value)[','] != 1
    ensures DecodeFromString(receiver, s).error == Some(InvalidFormat) ==>
        DecodeFromString(receiver, s).cursor == receiver
  {
    hide Base64.Decode, Parse, Split;
    SplitCounts(Base64.Decode(s).value);
  }

  /** What is accepted can be handed out again: it is well-formed but for its ID, and portable. */
  lemma AcceptedIsPortable(s: string)
    requires s != "" && DecodeFromString(EMPTY_CURSOR, s).error.None?
    ensures var c := DecodeFromString(EMPTY_CURSOR, s).cursor;
            Coherent(c.sent) && Portable(c)
  {
    hide Base64.Decode, Parse;
    var parts := Split(Base64.Decode(s).value);
    ParsedIsCoherent(parts[1]);
    SplitParts(Base64.Decode(s).value, 0);
  }

  lemma {:induction false} SplitParts(s: string, k: nat)
    requires k < |Split(s)|
    ensures ',' !in Split(s)[k]
  {
    if s != "" {
      if s[0] == ',' {
        if k > 0 {
          SplitParts(s[1..], k - 1);
        }
      } else {
        SplitParts(s[1..], k);
      }
    }
  }
}
