/** The stored form of a dedupe entry: JSON with Unix seconds, and two legacy text forms. */
module EntryCodec {
  import opened Wrappers
  import opened Text
  import opened Clock

  datatype Entry = Entry(fingerprint: string, scanned: Time, published: Time, summary: string)

  const EMPTY: Entry := Entry("", ZERO_TIME, ZERO_TIME, "")

  /** A JSON value as far as decoding distinguishes them. */
  datatype Raw = RawInt(n: int) | RawString(s: string) | RawNull | RawOther

  datatype Json = Null | Object(fields: map<string, Raw>) | OtherJson

  /** A stored payload: its text, and the JSON it parses to, if it does. */
  datatype Stored = Stored(text: string, json: Option<Json>)

  // --- encoding ---

  function ToUnix(t: Time): (u: int)
    ensures MIN_INT64 <= u <= MAX_INT64
  {
    if t == ZERO_TIME then 0 else t / SECOND
  }

  /** time.Unix for positive seconds, the zero time otherwise. */
  function FromUnix(u: int): Time
    requires MIN_INT64 <= u <= MAX_INT64
  {
    if u > 0 then u * SECOND else ZERO_TIME
  }

  function Marshal(e: Entry): Json {
    Object(map[
      "fingerprint" := RawString(e.fingerprint),
      "lastScannedTime" := RawInt(ToUnix(e.scanned)),
      "lastPublishedTime" := RawInt(ToUnix(e.published)),
      "summary" := RawString(e.summary)])
  }

  // --- decoding ---

  predicate IsSpace(c: char) {
    c == ' ' || c == '\t' || c == '\n' || c == '\r'
  }

  function TrimSpace(s: string): string
    decreases |s|
  {
    if s != [] && IsSpace(s[0]) then TrimSpace(s[1..])
    else if s != [] && IsSpace(s[|s| - 1]) then TrimSpace(s[..|s| - 1])
    else s
  }

  /** json.Unmarshal into a string: null leaves the target alone. */
  function DecodeString(raw: Raw, was: string): Option<string> {
    match raw
    case RawString(s) => Some(s)
    case RawNull => Some(was)
    case _ => None
  }

  /** `rfc3339` is time.Parse(time.RFC3339, ·). */
  function DecodeTime(raw: Raw, rfc3339: string -> Option<Time>): Option<Time> {
    match raw
    case RawInt(n) => if MIN_INT64 <= n <= MAX_INT64 then Some(FromUnix(n)) else None
    case RawNull => Some(ZERO_TIME)
    case RawOther => None
    case RawString(raw) =>
      var s := TrimSpace(raw);
      if s == "" then Some(ZERO_TIME)
      else
        match (rfc3339(s), ParseInt64(s))
        case (Some(t), _) => Some(t)
        case (None, Some(n)) => if n > 0 then Some(FromUnix(n)) else None
        case (None, None) => None
  }

  /** UnmarshalJSON: the receiver afterwards, and whether it succeeded. Fields are assigned in turn. */
  function UnmarshalJson(e: Entry, j: Json, rfc3339: string -> Option<Time>): (Entry, bool) {
    match j
    case Null => (EMPTY, true)
    case OtherJson => (e, false)
    case Object(f) =>
      var fp := if "fingerprint" in f then DecodeString(f["fingerprint"], e.fingerprint) else Some(e.fingerprint);
      if fp == None then (e, false)
      else
        var e1 := e.(fingerprint := fp.value);
        var summary := if "summary" in f then DecodeString(f["summary"], e.summary) else Some(e.summary);
        if summary == None then (e1, false)
        else
          var e2 := e1.(summary := summary.value);
          var scanned := if "lastScannedTime" in f then DecodeTime(f["lastScannedTime"], rfc3339) else Some(e.scanned);
          if scanned == None then (e2, false)
          else
            var e3 := e2.(scanned := scanned.value);
            var published := if "lastPublishedTime" in f then DecodeTime(f["lastPublishedTime"], rfc3339)
                else Some(e.published);
            if published == None then (e3, false)
            else (e3.(published := published.value), true)
  }

  /** strings.SplitN(s, sep, n) for n >= 1. */
  function SplitN(s: string, sep: char, n: nat): (parts: seq<string>)
    requires n >= 1
    ensures 1 <= |parts| <= n
  {
    var i := IndexOf(s, sep);
    if n == 1 || i == -1 then [s] else [s[..i]] + SplitN(s[i + 1..], sep, n - 1)
  }

  function UnmarshalText(text: string): (Entry, bool) {
    var parts := SplitN(text, '|', 4);
    if |parts| == 4 then
      var e := Entry(parts[0], ZERO_TIME, ZERO_TIME, parts[3]);
      match (ParseInt64(parts[1]), ParseInt64(parts[2]))
      case (Some(s), Some(p)) => (e.(scanned := FromUnix(s), published := FromUnix(p)), true)
      case _ => (e, false)
    else
      (Entry(text, ZERO_TIME, ZERO_TIME, ""), true)
  }

  function Unmarshal(e: Entry, data: Stored, rfc3339: string -> Option<Time>): (Entry, bool) {
    if data.json.Some? && UnmarshalJson(e, data.json.value, rfc3339).1
    then UnmarshalJson(e, data.json.value, rfc3339)
    else UnmarshalText(data.text)
  }

  /** The receiver of the decoding methods. */
  class StoredEntry {
    var fingerprint: string
    var scanned: Time
    var published: Time
    var summary: string

    constructor ()
      ensures View() == EMPTY
    {
      fingerprint, scanned, published, summary := "", ZERO_TIME, ZERO_TIME, "";
    }

    function View(): Entry
      reads this
    {
      Entry(fingerprint, scanned, published, summary)
    }

    method UnmarshalJSON(j: Json, rfc3339: string -> Option<Time>) returns (ok: bool)
      modifies this
      ensures (View(), ok) == UnmarshalJson(old(View()), j, rfc3339)
    {
      if j.Null? {
        fingerprint, scanned, published, summary := "", ZERO_TIME, ZERO_TIME, "";
        return true;
      }
      if j.OtherJson? {
        return false;
      }
      if "fingerprint" in j.fields {
        var s := DecodeString(j.fields["fingerprint"], fingerprint);
        if s == None { return false; }
        fingerprint := s.value;
      }
      if "summary" in j.fields {
        var s := DecodeString(j.fields["summary"], summary);
        if s == None { return false; }
        summary := s.value;
      }
      if "lastScannedTime" in j.fields {
        var t := DecodeTime(j.fields["lastScannedTime"], rfc3339);
        if t == None { return false; }
        scanned := t.value;
      }
      if "lastPublishedTime" in j.fields {
        var t := DecodeTime(j.fields["lastPublishedTime"], rfc3339);
        if t == None { return false; }
        published := t.value;
      }
      return true;
    }

    method UnmarshalStored(data: Stored, rfc3339: string -> Option<Time>) returns (ok: bool)
      modifies this
      ensures (View(), ok) == Unmarshal(old(View()), data, rfc3339)
    {
      if data.json.Some? {
        var decoded := UnmarshalJSON(data.json.value, rfc3339);
        if decoded {
          return true;
        }
      }
      var parts := SplitN(data.text, '|', 4);
      if |parts| == 4 {
        fingerprint, summary := parts[0], parts[3];
        scanned, published := ZERO_TIME, ZERO_TIME;
        var s := ParseInt64(parts[1]);
        if s == None { return false; }
        var p := ParseInt64(parts[2]);
        if p == None { return false; }
        if s.value > 0 { scanned := FromUnix(s.value); }
        if p.value > 0 { published := FromUnix(p.value); }
        return true;
      }
      fingerprint, summary := data.text, "";
      scanned, published := ZERO_TIME, ZERO_TIME;
      return true;
    }
  }

  // --- the round trip ---

  /** Storage keeps whole seconds after the epoch, and nothing of earlier instants. */
  function StoredTime(t: Time): Time {
    if t < SECOND then ZERO_TIME else t / SECOND * SECOND
  }

  function Persisted(e: Entry): Entry {
    e.(scanned := StoredTime(e.scanned), published := StoredTime(e.published))
  }

  /** What is read back, into any receiver and whatever the JSON text looks like. */
  lemma RoundTrip(e: Entry, receiver: Entry, text: string, rfc3339: string -> Option<Time>)
    ensures Unmarshal(receiver, Stored(text, Some(Marshal(e))), rfc3339) == (Persisted(e), true)
  {
    UnixTruncates(e.scanned);
    UnixTruncates(e.published);
  }

  lemma UnixTruncates(t: Time)
    ensures FromUnix(ToUnix(t)) == StoredTime(t)
  {
    if t < SECOND {
      assert t / SECOND <= 0;
    }
  }

  predicate WholePositive(t: Time) {
    t == ZERO_TIME || (t > 0 && t % SECOND == 0)
  }

  /** Storing is idempotent, and loses nothing exactly for zero times and whole positive seconds. */
  lemma PersistedExactly(e: Entry)
    ensures Persisted(Persisted(e)) == Persisted(e)
    ensures Persisted(e) == e <==> WholePositive(e.scanned) && WholePositive(e.published)
  {
    StoredTimeExactly(e.scanned);
    StoredTimeExactly(e.published);
  }

  lemma StoredTimeExactly(t: Time)
    ensures StoredTime(StoredTime(t)) == StoredTime(t)
    ensures StoredTime(t) == t <==> WholePositive(t)
  {
    assert t == t / SECOND * SECOND + t % SECOND;
  }

  // --- times given as text ---

  /** White space only. */
  predicate Blank(s: string) {
    forall i :: 0 <= i < |s| ==> IsSpace(s[i])
  }

  predicate Trimmed(s: string) {
    s != "" ==> !IsSpace(s[0]) && !IsSpace(s[|s| - 1])
  }

  lemma {:induction false} TrimsBlanks(before: string, s: string, after: string)
    requires Blank(before) && Blank(after) && Trimmed(s)
    ensures TrimSpace(before + s + after) == s
    decreases |before| + |after|
  {
    var text := before + s + after;
    if before != "" {
      assert text[1..] == before[1..] + s + after;
      TrimsBlanks(before[1..], s, after);
    } else if s == "" && after != "" {
      assert text[1..] == before + s + after[1..];
      TrimsBlanks(before, s, after[1..]);
    } else if after != "" {
      assert text[..|text| - 1] == before + s + after[..|after| - 1];
      TrimsBlanks(before, s, after[..|after| - 1]);
    } else {
      assert text == s;
    }
  }

  /**
   A time given as text, white space around it or not: nothing is the zero time, an RFC 3339 time
   is itself, a positive number of seconds is that instant, and anything else is an error.
   */
  lemma TextTimes(before: string, s: string, after: string, rfc3339: string -> Option<Time>)
    requires Blank(before) && Blank(after) && Trimmed(s)
    ensures var t := DecodeTime(RawString(before + s + after), rfc3339);
            && (s == "" ==> t == Some(ZERO_TIME))
            && (s != "" && rfc3339(s).Some? ==> t == rfc3339(s))
            && (s != "" && rfc3339(s) == None && ParseInt64(s) == None ==> t == None)
  {
    TrimsBlanks(before, s, after);
  }

  lemma TextSeconds(before: string, n: int, after: string, rfc3339: string -> Option<Time>)
    requires Blank(before) && Blank(after) && MIN_INT64 <= n <= MAX_INT64 && rfc3339(PrintInt(n)) == None
    ensures DecodeTime(RawString(before + PrintInt(n) + after), rfc3339) == if n > 0 then Some(n * SECOND) else None
  {
    var s := PrintInt(n);
    assert Trimmed(s);
    TrimsBlanks(before, s, after);
    ParsePrintInt(n);
  }

  // --- the fields of a JSON object ---

  function DecodedString(f: map<string, Raw>, key: string, was: string): Option<string> {
    if key in f then DecodeString(f[key], was) else Some(was)
  }

  function DecodedTime(f: map<string, Raw>, key: string, was: Time, rfc3339: string -> Option<Time>): Option<Time> {
    if key in f then DecodeTime(f[key], rfc3339) else Some(was)
  }

  /**
   An object decodes exactly when each of its four fields does, by itself; then each field is its
   own key's value, a missing one what the receiver had.  Otherwise fingerprint and summary may
   have been assigned, but never a time after one that does not decode.
   */
  lemma FieldsExactly(e: Entry, f: map<string, Raw>, rfc3339: string -> Option<Time>)
    ensures var fp, summary := DecodedString(f, "fingerprint", e.fingerprint), DecodedString(f, "summary", e.summary);
            var scanned := DecodedTime(f, "lastScannedTime", e.scanned, rfc3339);
            var published := DecodedTime(f, "lastPublishedTime", e.published, rfc3339);
            var (d, ok) := UnmarshalJson(e, Object(f), rfc3339);
            && (ok <==> fp.Some? && summary.Some? && scanned.Some? && published.Some?)
            && (ok ==> d == Entry(fp.value, scanned.value, published.value, summary.value))
            && (!ok ==> d.published == e.published && (scanned == None ==> d.scanned == e.scanned))
  {
  }

  /**
   What is not a string or a number: null keeps a string and zeroes a time, anything else is an
   error; a payload that is null empties the receiver, one that is no object leaves it alone.
   */
  lemma OtherValues(e: Entry, s: string, n: int, rfc3339: string -> Option<Time>)
    ensures DecodeString(RawNull, s) == Some(s)
    ensures DecodeString(RawOther, s) == None && DecodeString(RawInt(n), s) == None
    ensures DecodeTime(RawNull, rfc3339) == Some(ZERO_TIME) && DecodeTime(RawOther, rfc3339) == None
    ensures DecodeTime(RawInt(n), rfc3339) ==
            if n < MIN_INT64 || n > MAX_INT64 then None else Some(if n > 0 then n * SECOND else ZERO_TIME)
    ensures UnmarshalJson(e, Null, rfc3339) == (Entry("", ZERO_TIME, ZERO_TIME, ""), true)
    ensures UnmarshalJson(e, OtherJson, rfc3339) == (e, false)
  {
  }

  /** A text of four fields decodes exactly when its second and third are 64-bit integers. */
  lemma LegacyDecodesExactly(fp: string, scanned: string, published: string, summary: string)
    requires '|' !in fp && '|' !in scanned && '|' !in published
    ensures var (e, ok) := UnmarshalText(LegacyText(fp, scanned, published, summary));
            && (ok <==> ParseInt64(scanned).Some? && ParseInt64(published).Some?)
            && e.fingerprint == fp && e.summary == summary
            && (!ok ==> e.scanned == e.published == ZERO_TIME)
  {
    LegacyParts(fp, scanned, published, summary);
  }

  function LegacyText(fp: string, scanned: string, published: string, summary: string): string {
    Join(fp, '|', Join(scanned, '|', Join(published, '|', summary)))
  }

  lemma SplitLast(a: string, sep: char, b: string)
    requires sep !in a
    ensures SplitN(Join(a, sep, b), sep, 2) == [a, b]
  {
    SplitFirst(a, sep, b, 2);
  }

  lemma SplitNext(a: string, sep: char, b: string, n: nat, parts: seq<string>)
    requires sep !in a && n >= 2 && SplitN(b, sep, n - 1) == parts
    ensures SplitN(Join(a, sep, b), sep, n) == [a] + parts
  {
    SplitFirst(a, sep, b, n);
  }

  lemma SplitThree(a: string, sep: char, b: string, c: string)
    requires sep !in a && sep !in b
    ensures SplitN(Join(a, sep, Join(b, sep, c)), sep, 3) == [a, b, c]
  {
    SplitLast(b, sep, c);
    SplitNext(a, sep, Join(b, sep, c), 3, [b, c]);
  }

  lemma SplitFour(a: string, sep: char, b: string, c: string, d: string, rest: string)
    requires sep !in a && SplitN(rest, sep, 3) == [b, c, d]
    ensures SplitN(Join(a, sep, rest), sep, 4) == [a, b, c, d]
  {
    SplitNext(a, sep, rest, 4, [b, c, d]);
  }

  lemma LegacyParts(fp: string, scanned: string, published: string, summary: string)
    requires '|' !in fp && '|' !in scanned && '|' !in published
    ensures SplitN(LegacyText(fp, scanned, published, summary), '|', 4) == [fp, scanned, published, summary]
  {
    SplitThree(scanned, '|', published, summary);
    SplitFour(fp, '|', scanned, published, summary, Join(scanned, '|', Join(published, '|', summary)));
  }

  // --- texts that are no JSON ---

  /** What the first character of a JSON text other than white space can be (sections 2 and 3 of RFC 8259). */
  predicate StartsJson(c: char) {
    c in "{[\"-tfn" || '0' <= c <= '9'
  }

  predicate LooksLikeJson(text: string) {
    text != [] && if IsSpace(text[0]) then LooksLikeJson(text[1..]) else StartsJson(text[0])
  }

  /** Only what looks like JSON parses. */
  predicate ParsedAsText(data: Stored) {
    data.json.Some? ==> LooksLikeJson(data.text)
  }

  predicate DecodesAsJson(receiver: Entry, data: Stored, rfc3339: string -> Option<Time>) {
    data.json.Some? && UnmarshalJson(receiver, data.json.value, rfc3339).1
  }

  lemma {:induction false} FirstFieldDecides(fp: string, rest: string)
    requires !LooksLikeJson(fp)
    ensures !LooksLikeJson(Join(fp, '|', rest))
  {
    var text := Join(fp, '|', rest);
    if fp == [] {
      assert text[0] == '|';
    } else if IsSpace(fp[0]) {
      assert text[1..] == Join(fp[1..], '|', rest);
      FirstFieldDecides(fp[1..], rest);
    }
  }

  /**
   The legacy text form reads back, pipes in the summary included, whenever the payload does not
   decode as JSON; and a fingerprint that does not look like the start of one rules that out.
   */
  lemma LegacyReadsBack(fp: string, scanned: int, published: int, summary: string, data: Stored, receiver: Entry,
                        rfc3339: string -> Option<Time>)
    requires '|' !in fp && MIN_INT64 <= scanned <= MAX_INT64 && MIN_INT64 <= published <= MAX_INT64
    requires data.text == LegacyText(fp, PrintInt(scanned), PrintInt(published), summary)
    requires !DecodesAsJson(receiver, data, rfc3339) || (ParsedAsText(data) && !LooksLikeJson(fp))
    ensures Unmarshal(receiver, data, rfc3339) == (Entry(fp, FromUnix(scanned), FromUnix(published), summary), true)
  {
    if !LooksLikeJson(fp) {
      FirstFieldDecides(fp, Join(PrintInt(scanned), '|', Join(PrintInt(published), '|', summary)));
    }
    LegacyValues(fp, scanned, published, summary);
  }

  lemma LegacyValues(fp: string, scanned: int, published: int, summary: string)
    requires '|' !in fp && MIN_INT64 <= scanned <= MAX_INT64 && MIN_INT64 <= published <= MAX_INT64
    ensures UnmarshalText(LegacyText(fp, PrintInt(scanned), PrintInt(published), summary))
         == (Entry(fp, FromUnix(scanned), FromUnix(published), summary), true)
  {
    ParsePrintInt(scanned);
    ParsePrintInt(published);
    LegacyParts(fp, PrintInt(scanned), PrintInt(published), summary);
  }

  lemma SplitFirst(a: string, sep: char, b: string, n: nat)
    requires sep !in a && n >= 2
    ensures SplitN(Join(a, sep, b), sep, n) == [a] + SplitN(b, sep, n - 1)
  {
    var s := Join(a, sep, b);
    IndexOfJoin(a, sep, b);
    assert s[..|a|] == a && s[|a| + 1..] == b;
  }

  /** A text without pipes that does not decode as JSON is a bare fingerprint. */
  lemma PlainReadsBack(fp: string, data: Stored, receiver: Entry, rfc3339: string -> Option<Time>)
    requires '|' !in fp && data.text == fp
    requires !DecodesAsJson(receiver, data, rfc3339) || (ParsedAsText(data) && !LooksLikeJson(fp))
    ensures Unmarshal(receiver, data, rfc3339) == (Entry(fp, ZERO_TIME, ZERO_TIME, ""), true)
  {
  }
}
