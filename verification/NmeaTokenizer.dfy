/** The debug sentence tokenizer of gps/core/SystemStatus.cpp: the first '*' becomes a ',', and every stretch
  * that ends in a ',' is a field. What follows the last ',' is dropped.
  */
module NmeaTokenizer {
  import opened Wrappers

  const DEBUG_NMEA_MINSIZE: nat := 6
  const DEBUG_NMEA_MAXSIZE: nat := 4096

  /** loc_nmea_is_debug: the length is the caller's, the talker is read from the text. */
  predicate IsDebug(nmea: Option<string>, length: nat) {
    nmea.Some? && DEBUG_NMEA_MINSIZE <= length <= DEBUG_NMEA_MAXSIZE && "$PQW" <= nmea.value
  }

  /** A debug sentence has between 6 and 4096 characters, as its caller counts them, and begins with $PQW. */
  lemma DebugIff(s: string, length: nat)
    ensures IsDebug(Some(s), length) <==>
            && 6 <= length && length <= 4096 && |s| >= 4
            && s[0] == '$' && s[1] == 'P' && s[2] == 'Q' && s[3] == 'W'
    ensures !IsDebug(None, length)
  {
    assert |s| >= 4 ==> s[..4] == [s[0], s[1], s[2], s[3]];
  }

  /** std::string::find for one character, with the length of the string for "not found". */
  function Find(s: string, c: char): (i: nat)
    ensures i <= |s| && (i < |s| ==> s[i] == c)
    ensures c !in s[..i]
    ensures i == |s| <==> c !in s
  {
    if s == "" || s[0] == c then 0 else
      assert forall i :: 0 < i <= |s| ==> s[..i] == [s[0]] + s[1..][..i - 1];
      assert s == [s[0]] + s[1..];
      1 + Find(s[1..], c)
  }

  // ---------------------------------------------------------------- what a split is

  /** Every field followed by a ','. */
  function Written(fields: seq<string>): string {
    if fields == [] then "" else fields[0] + "," + Written(fields[1..])
  }

  ghost predicate NoCommas(fields: seq<string>) {
    forall i :: 0 <= i < |fields| ==> ',' !in fields[i]
  }

  /** The fields and the dropped remainder of a text: lossless, and cut at every ','. */
  ghost predicate IsSplit(text: string, fields: seq<string>, rest: string) {
    NoCommas(fields) && ',' !in rest && Written(fields) + rest == text
  }

  function CommaCount(s: string): nat {
    if s == "" then 0 else (if s[0] == ',' then 1 else 0) + CommaCount(s[1..])
  }

  /** The text that the tokenizer splits: the first '*' has become a ','. */
  function StarReplaced(sentence: string): string
    requires '*' in sentence
  {
    sentence[Find(sentence, '*') := ',']
  }

  class SystemStatusNmeaBase {
    var mField: seq<string>

    /** A debug sentence with a '*' is split; anything else leaves no field. */
    constructor (str_in: Option<string>, len_in: nat)
      ensures if IsDebug(str_in, len_in) && '*' in str_in.value
              then exists rest :: IsSplit(StarReplaced(str_in.value), mField, rest)
              else mField == []
    {
      mField := [];
      new;
      if !IsDebug(str_in, len_in) {
        return;
      }
      var parser := str_in.value;
      var index := Find(parser, '*');
      if index == |parser| {
        return;
      }
      parser := parser[index := ','];
      ghost var text := StarReplaced(str_in.value);
      assert parser == text;
      while true
        invariant NoCommas(mField) && Written(mField) + parser == text
        decreases |parser|
      {
        index := Find(parser, ',');
        if index == |parser| {
          break;
        }
        assert parser == parser[..index] + "," + parser[index + 1..];
        FieldMoves(mField, parser[..index], parser[index + 1..]);
        mField := mField + [parser[..index]];
        parser := parser[index + 1..];
      }
      assert IsSplit(StarReplaced(str_in.value), mField, parser);
    }
  }

  /** Moving one field from the unread text to the list loses nothing. */
  lemma FieldMoves(fields: seq<string>, str: string, tail: string)
    requires NoCommas(fields) && ',' !in str
    ensures NoCommas(fields + [str])
    ensures Written(fields + [str]) + tail == Written(fields) + (str + "," + tail)
  {
    WrittenSnoc(fields, str);
  }

  // ---------------------------------------------------------------- facts about splits

  lemma {:induction false} WrittenSnoc(fields: seq<string>, last: string)
    ensures Written(fields + [last]) == Written(fields) + last + ","
  {
    if fields != [] {
      assert (fields + [last])[1..] == fields[1..] + [last];
      WrittenSnoc(fields[1..], last);
    } else {
      assert [last][1..] == [];
    }
  }

  lemma {:induction false} FindIs(s: string, c: char, i: nat)
    requires i < |s| && s[i] == c && c !in s[..i]
    ensures Find(s, c) == i
  {
    if i > 0 {
      assert s[0] == s[..i][0];
      assert s[1..][..i - 1] == s[..i][1..];
      FindIs(s[1..], c, i - 1);
    }
  }

  /** A text splits in one way only: fields and remainder are determined by the text. */
  lemma {:induction false} SplitIsUnique(text: string, f: seq<string>, r: string, g: seq<string>, q: string)
    requires IsSplit(text, f, r) && IsSplit(text, g, q)
    ensures f == g && r == q
  {
    FirstField(text, f, r);
    FirstField(text, g, q);
    if f != [] && g != [] {
      SplitIsUnique(text[Find(text, ',') + 1..], f[1..], r, g[1..], q);
      assert f == [f[0]] + f[1..] && g == [g[0]] + g[1..];
    }
  }

  /** There is a first field exactly when there is a ',', and it ends there. */
  lemma FirstField(text: string, f: seq<string>, r: string)
    requires IsSplit(text, f, r)
    ensures f == [] <==> Find(text, ',') == |text|
    ensures f == [] ==> text == r
    ensures f != [] ==> |f[0]| == Find(text, ',') && f[0] == text[..|f[0]|]
    ensures f != [] ==> IsSplit(text[Find(text, ',') + 1..], f[1..], r)
  {
    if f != [] {
      var n, tail := |f[0]|, Written(f[1..]) + r;
      assert text == f[0] + "," + tail;
      assert text[..n] == f[0] && text[n + 1..] == tail;
      FindIs(text, ',', n);
    } else {
      assert text == r;
    }
  }

  lemma {:induction false} NoCommaCount(s: string)
    requires ',' !in s
    ensures CommaCount(s) == 0
  {
    if s != "" {
      NoCommaCount(s[1..]);
    }
  }

  /** There are as many fields as commas. */
  lemma {:induction false} FieldCountIsCommaCount(text: string, fields: seq<string>, rest: string)
    requires IsSplit(text, fields, rest)
    ensures |fields| == CommaCount(text)
  {
    FirstField(text, fields, rest);
    if fields == [] {
      NoCommaCount(text);
    } else {
      var n := |fields[0]|;
      FieldCountIsCommaCount(text[n + 1..], fields[1..], rest);
      CommaCountCut(text, n);
    }
  }

  lemma {:induction false} CommaCountCut(text: string, n: nat)
    requires n == Find(text, ',') < |text|
    ensures CommaCount(text) == 1 + CommaCount(text[n + 1..])
  {
    if n > 0 {
      CommaCountCut(text[1..], n - 1);
      assert text[1..][n..] == text[n + 1..];
    }
  }

  // ---------------------------------------------------------------- writing and reading back

  /** The fields with a ',' between them. */
  function Joined(fields: seq<string>): string
    requires fields != []
  {
    if |fields| == 1 then fields[0] else fields[0] + "," + Joined(fields[1..])
  }

  /** Whatever fields are written before a '*' and a checksum, without separators in them, are exactly the
    * ones read back; the checksum is what is dropped.
    */
  lemma {:induction false} SentenceReadsBack(fields: seq<string>, checksum: string, f: seq<string>, rest: string)
    requires fields != [] && NoCommas(fields) && ',' !in checksum
    requires forall i :: 0 <= i < |fields| ==> '*' !in fields[i]
    requires '*' in Joined(fields) + "*" + checksum
    requires IsSplit(StarReplaced(Joined(fields) + "*" + checksum), f, rest)
    ensures f == fields && rest == checksum
  {
    var s, n := Joined(fields) + "*" + checksum, |Joined(fields)|;
    JoinedIsWritten(fields);
    assert s[n] == '*' && s[..n] == Joined(fields);
    FindIs(s, '*', n);
    assert StarReplaced(s) == Written(fields) + checksum;
    SplitIsUnique(StarReplaced(s), f, rest, fields, checksum);
  }

  lemma {:induction false} JoinedIsWritten(fields: seq<string>)
    requires fields != [] && forall i :: 0 <= i < |fields| ==> '*' !in fields[i]
    ensures '*' !in Joined(fields) && Joined(fields) + "," == Written(fields)
  {
    if |fields| == 1 {
      assert Written(fields[1..]) == "";
    } else {
      JoinedIsWritten(fields[1..]);
      assert Joined(fields) + "," == fields[0] + "," + (Joined(fields[1..]) + ",");
    }
  }
}
