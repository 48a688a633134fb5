/** The notes text of a table: reading the session clock and the per-player seconds out of its
    `|`-separated fields, and printing the per-player field. */
module SessionNotes {
  import opened Basics
  import opened SessionClock

  function LowerChar(c: char): char {
    if 'A' <= c <= 'Z' then (c as int + 32) as char else c
  }

  function Lower(s: string): (r: string)
    ensures |r| == |s|
    ensures forall i :: 0 <= i < |s| ==> r[i] == LowerChar(s[i])
  {
    if |s| == 0 then "" else [LowerChar(s[0])] + Lower(s[1..])
  }

  predicate IsDigit(c: char) {
    '0' <= c <= '9'
  }

  /** [0-9a-f-] with the i flag. */
  predicate IsIdChar(c: char) {
    IsDigit(c) || 'a' <= c <= 'f' || 'A' <= c <= 'F' || c == '-'
  }

  predicate IsSpace(c: char) {
    || c == ' ' || c == '\t' || c == '\n' || c == '\r'
    || c == '\U{000B}' || c == '\U{000C}' || c == '\U{00A0}' || c == '\U{FEFF}'
    || c == '\U{1680}' || '\U{2000}' <= c <= '\U{200A}' || c == '\U{2028}' || c == '\U{2029}' || c == '\U{202F}'
    || c == '\U{205F}' || c == '\U{3000}'
  }

  function TrimLeft(s: string): string {
    if |s| > 0 && IsSpace(s[0]) then TrimLeft(s[1..]) else s
  }

  function TrimRight(s: string): string {
    if |s| > 0 && IsSpace(s[|s| - 1]) then TrimRight(s[..|s| - 1]) else s
  }

  function Trim(s: string): string {
    TrimRight(TrimLeft(s))
  }

  // ---------------------------------------------------------------- finding a field

  /** The key stands at the head of s, in upper or lower case. */
  predicate HasKey(s: string, key: string) {
    |s| >= |key| && forall i :: 0 <= i < |key| ==> LowerChar(s[i]) == LowerChar(key[i])
  }

  function UpToBar(s: string): string {
    if |s| == 0 || s[0] == '|' then "" else [s[0]] + UpToBar(s[1..])
  }

  /** The capture of /Key:([^|]+)/i: the first place where the key is followed by at least one
      character that is not a bar, up to the next bar. */
  function Field(s: string, key: string): Option<string> {
    if |s| == 0 then None
    else if HasKey(s, key) && |s| > |key| && s[|key|] != '|' then Some(UpToBar(s[|key|..]))
    else Field(s[1..], key)
  }

  /** The trimmed field, empty when there is none. */
  function Blob(s: string, key: string): string {
    match Field(s, key)
    case None => ""
    case Some(body) => Trim(body)
  }

  predicate Mentions(s: string, key: string) {
    exists i :: 0 <= i <= |s| && HasKey(s[i..], key)
  }

  // ---------------------------------------------------------------- pairs

  function Split(s: string, sep: char): (parts: seq<string>)
    ensures |parts| > 0
  {
    if |s| == 0 then [""]
    else
      var rest := Split(s[1..], sep);
      if s[0] == sep then [""] + rest else [[s[0]] + rest[0]] + rest[1..]
  }

  function Join(parts: seq<string>, sep: char): string
    requires |parts| > 0
  {
    if |parts| == 1 then parts[0] else parts[0] + [sep] + Join(parts[1..], sep)
  }

  predicate AllDigits(s: string) {
    |s| > 0 && forall i :: 0 <= i < |s| ==> IsDigit(s[i])
  }

  predicate ValidId(id: string) {
    |id| == 36 && forall i :: 0 <= i < 36 ==> IsIdChar(id[i])
  }

  /** parseInt in base ten. */
  function Number(s: string): nat
    requires forall i :: 0 <= i < |s| ==> IsDigit(s[i])
  {
    if |s| == 0 then 0
    else
      assert IsDigit(s[|s| - 1]);
      10 * Number(s[..|s| - 1]) + (s[|s| - 1] as int - '0' as int)
  }

  /** /^([0-9a-f-]{36})=(\d+)$/i on the trimmed part. */
  function ParsePair(part: string): Option<(string, nat)> {
    var t := Trim(part);
    if |t| > 37 && ValidId(t[..36]) && t[36] == '=' && AllDigits(t[37..])
    then Some((Lower(t[..36]), Number(t[37..]))) else None
  }

  /** The pairs of the parts in order: a malformed part is skipped, a later duplicate wins. */
  function Pairs(parts: seq<string>): map<string, int> {
    if |parts| == 0 then map[]
    else
      var m := Pairs(parts[..|parts| - 1]);
      match ParsePair(parts[|parts| - 1])
      case None => m
      case Some((id, sec)) => m[id := sec]
  }

  const CARRY_KEY := "PlayerCarry:"
  const PAUSED_KEY := "PausedPlayers:"

  /** The per-player seconds under two field keys: the first is tried only when it is preferred, the
      second when the first gives nothing. */
  function PairsIn(notes: string, carryKey: string, pausedKey: string, preferCarry: bool): map<string, int> {
    var carry := if preferCarry then Blob(notes, carryKey) else "";
    var blob := if carry == "" then Blob(notes, pausedKey) else carry;
    if blob == "" then map[] else Pairs(Split(blob, ','))
  }

  function Baselines(notes: string, preferCarry: bool): map<string, int> {
    PairsIn(notes, CARRY_KEY, PAUSED_KEY, preferCarry)
  }

  /** parsePlayerBaselineMap, with the loop that fills the record. */
  method ParsePlayerBaselineMap(notes: string, preferCarryWhenSession: bool) returns (out: map<string, int>)
    ensures out == Baselines(notes, preferCarryWhenSession)
    ensures forall id :: id in out ==> ValidId(id) && Lower(id) == id && out[id] >= 0
  {
    var blob := "";
    if preferCarryWhenSession {
      blob := Blob(notes, CARRY_KEY);
    }
    if blob == "" {
      blob := Blob(notes, PAUSED_KEY);
    }
    out := map[];
    if blob == "" {
      return;
    }
    var parts := Split(blob, ',');
    var i := 0;
    while i < |parts|
      invariant 0 <= i <= |parts|
      invariant out == Pairs(parts[..i])
      invariant forall id :: id in out ==> ValidId(id) && Lower(id) == id && out[id] >= 0
    {
      assert parts[..i + 1][..i] == parts[..i];
      var t := Trim(parts[i]);
      if |t| > 37 && ValidId(t[..36]) && t[36] == '=' && AllDigits(t[37..]) {
        LowerTwice(t[..36]);
        out := out[Lower(t[..36]) := Number(t[37..])];
      }
      i := i + 1;
    }
    assert parts[..i] == parts;
  }

  lemma LowerTwice(s: string)
    ensures Lower(Lower(s)) == Lower(s)
    ensures ValidId(s) ==> ValidId(Lower(s))
  {
  }

  // ---------------------------------------------------------------- the whole notes

  function SkipSpaces(s: string): string {
    TrimLeft(s)
  }

  function LeadingDigits(s: string): string {
    if |s| > 0 && IsDigit(s[0]) then [s[0]] + LeadingDigits(s[1..]) else ""
  }

  lemma LeadingDigitsAreDigits(s: string)
    ensures forall i :: 0 <= i < |LeadingDigits(s)| ==> IsDigit(LeadingDigits(s)[i])
  {
  }

  /** The capture of /Key:\s*(\d+)/i: the first place where the key is followed by digits. */
  function DigitsAfter(s: string, key: string): (d: Option<string>)
    ensures d.Some? ==> AllDigits(d.value)
  {
    if |s| == 0 then None
    else
      LeadingDigitsAreDigits(SkipSpaces(if |s| >= |key| then s[|key|..] else ""));
      if HasKey(s, key) && LeadingDigits(SkipSpaces(s[|key|..])) != "" then Some(LeadingDigits(SkipSpaces(s[|key|..])))
      else DigitsAfter(s[1..], key)
  }

  const ELAPSED_KEY := "Paused Elapsed:"

  function ElapsedDigits(s: string): (d: Option<string>)
    ensures d.Some? ==> AllDigits(d.value)
  {
    DigitsAfter(s, ELAPSED_KEY)
  }

  /** parseTableSessionNotes; `dateOf` is the Date parser. */
  function ParseNotes(notes: string, dateOf: string -> Option<int>): Clock {
    var started := Field(notes, "Session Started:");
    var elapsed := ElapsedDigits(notes);
    var carry := if elapsed.Some? then Number(elapsed.value) else 0;
    var startedAt := if started.Some? then dateOf(Trim(started.value)) else None;
    if startedAt.Some? then
      Clock(startedAt, carry, false, None, None, Baselines(notes, true))
    else if elapsed.Some? && !Mentions(notes, "Session Started:") then
      var at := Field(notes, "Paused At:");
      var segment := Field(notes, "Segment Start:");
      Clock(None, carry, true,
            if at.Some? then dateOf(Trim(at.value)) else None,
            if segment.Some? then dateOf(Trim(segment.value)) else None,
            Baselines(notes, false))
    else IDLE
  }

  // ---------------------------------------------------------------- printing

  function Digits(n: nat): (s: string)
    ensures AllDigits(s)
  {
    if n < 10 then [(n + '0' as int) as char] else Digits(n / 10) + [(n % 10 + '0' as int) as char]
  }

  datatype Entry = Entry(id: string, seconds: nat)

  function PrintPair(e: Entry): string {
    e.id + "=" + Digits(e.seconds)
  }

  function PrintAll(entries: seq<Entry>): (parts: seq<string>)
    ensures |parts| == |entries|
    ensures forall i :: 0 <= i < |entries| ==> parts[i] == PrintPair(entries[i])
  {
    if |entries| == 0 then [] else [PrintPair(entries[0])] + PrintAll(entries[1..])
  }

  /** The field body: id=seconds pairs separated by commas. */
  function PrintBlob(entries: seq<Entry>): string
    requires |entries| > 0
  {
    Join(PrintAll(entries), ',')
  }

  /** What the entries mean: lower-cased ids, later entries win. */
  function Meaning(entries: seq<Entry>): map<string, int> {
    if |entries| == 0 then map[]
    else Meaning(entries[..|entries| - 1])[Lower(entries[|entries| - 1].id) := entries[|entries| - 1].seconds]
  }

  // ---------------------------------------------------------------- round trip

  lemma {:induction false} NumberOfDigits(n: nat)
    ensures Number(Digits(n)) == n
  {
    if n >= 10 {
      NumberOfDigits(n / 10);
      assert Digits(n)[..|Digits(n)| - 1] == Digits(n / 10);
    }
  }

  predicate Free(s: string, c: char) {
    forall i :: 0 <= i < |s| ==> s[i] != c
  }

  lemma {:induction false} SplitOne(s: string, sep: char)
    requires Free(s, sep)
    ensures Split(s, sep) == [s]
  {
    if |s| > 0 {
      SplitOne(s[1..], sep);
      assert [s[0]] + s[1..] == s;
    }
  }

  lemma {:induction false} SplitHead(s: string, sep: char, rest: string)
    requires Free(s, sep)
    ensures Split(s + [sep] + rest, sep) == [s] + Split(rest, sep)
  {
    var all := s + [sep] + rest;
    if |s| == 0 {
      assert all[1..] == rest;
    } else {
      assert all[1..] == s[1..] + [sep] + rest;
      SplitHead(s[1..], sep, rest);
      assert [s[0]] + s[1..] == s;
    }
  }

  lemma {:induction false} SplitJoin(parts: seq<string>, sep: char)
    requires |parts| > 0 && forall i :: 0 <= i < |parts| ==> Free(parts[i], sep)
    ensures Split(Join(parts, sep), sep) == parts
  {
    if |parts| == 1 {
      SplitOne(parts[0], sep);
    } else {
      SplitJoin(parts[1..], sep);
      SplitHead(parts[0], sep, Join(parts[1..], sep));
    }
  }

  /** Text that starts and ends with a visible character is not trimmed. */
  predicate Tight(s: string) {
    |s| > 0 && !IsSpace(s[0]) && !IsSpace(s[|s| - 1])
  }

  lemma PrintPairFacts(e: Entry)
    requires ValidId(e.id)
    ensures Tight(PrintPair(e)) && Free(PrintPair(e), ',') && Free(PrintPair(e), '|')
    ensures ParsePair(PrintPair(e)) == Some((Lower(e.id), e.seconds))
  {
    var s := PrintPair(e);
    assert s[..36] == e.id && s[36] == '=' && s[37..] == Digits(e.seconds);
    NumberOfDigits(e.seconds);
  }

  lemma {:induction false} PairsOfPrinted(entries: seq<Entry>)
    requires forall i :: 0 <= i < |entries| ==> ValidId(entries[i].id)
    ensures Pairs(PrintAll(entries)) == Meaning(entries)
    decreases |entries|
  {
    if |entries| > 0 {
      var init := entries[..|entries| - 1];
      PairsOfPrinted(init);
      assert PrintAll(entries)[..|entries| - 1] == PrintAll(init);
      PrintPairFacts(entries[|entries| - 1]);
    }
  }

  lemma {:induction false} JoinFacts(parts: seq<string>)
    requires |parts| > 0
    requires forall i :: 0 <= i < |parts| ==> Tight(parts[i]) && Free(parts[i], '|')
    ensures Tight(Join(parts, ',')) && Free(Join(parts, ','), '|')
  {
    if |parts| > 1 {
      JoinFacts(parts[1..]);
      var tail := Join(parts[1..], ',');
      var all := Join(parts, ',');
      assert all[|all| - 1] == tail[|tail| - 1];
    }
  }

  lemma PrintBlobFacts(entries: seq<Entry>)
    requires |entries| > 0 && forall i :: 0 <= i < |entries| ==> ValidId(entries[i].id)
    ensures Tight(PrintBlob(entries)) && Free(PrintBlob(entries), '|')
    ensures Pairs(Split(PrintBlob(entries), ',')) == Meaning(entries)
  {
    forall i | 0 <= i < |entries|
      ensures Tight(PrintAll(entries)[i]) && Free(PrintAll(entries)[i], ',') && Free(PrintAll(entries)[i], '|')
    {
      PrintPairFacts(entries[i]);
    }
    JoinFacts(PrintAll(entries));
    SplitJoin(PrintAll(entries), ',');
    PairsOfPrinted(entries);
  }

  /** Nothing follows the field but the end of the notes or the next bar. */
  predicate Closes(after: string) {
    |after| == 0 || after[0] == '|'
  }

  lemma {:induction false} UpToBarStops(body: string, after: string)
    requires Free(body, '|') && Closes(after)
    ensures UpToBar(body + after) == body
  {
    if |body| == 0 {
      assert body + after == after;
    } else {
      assert (body + after)[1..] == body[1..] + after;
      UpToBarStops(body[1..], after);
    }
  }

  /** A key ends in its only colon. */
  predicate IsKey(key: string) {
    |key| > 0 && key[|key| - 1] == ':' && forall i :: 0 <= i < |key| - 1 ==> key[i] != ':'
  }

  /** A key cannot start inside the text before it and end inside itself. */
  lemma KeyOverlap(before: string, key: string, rest: string)
    requires IsKey(key) && |before| > 0
    requires HasKey(before + (key + rest), key)
    ensures Mentions(before, key)
  {
    var all, n := before + (key + rest), |key|;
    assert LowerChar(all[n - 1]) == LowerChar(key[n - 1]) == ':';
    assert forall j :: 0 <= j < n ==> all[|before| + j] == key[j];
    assert forall j :: |before| <= j < n - 1 + |before| ==> all[j] == key[j - |before|];
    if |before| < n {
      assert false;
    }
    assert before[0..] == before;
    assert HasKey(before[0..], key);
  }

  lemma MentionsTail(s: string, key: string)
    requires |s| > 0 && !Mentions(s, key)
    ensures !Mentions(s[1..], key)
  {
    forall i | 0 <= i <= |s| - 1
      ensures !HasKey(s[1..][i..], key)
    {
      assert s[1..][i..] == s[i + 1..];
    }
  }

  /** A field is found wherever it stands, as long as its key does not occur earlier. */
  lemma {:induction false} FieldFound(before: string, key: string, body: string, after: string)
    requires IsKey(key) && !Mentions(before, key)
    requires |body| > 0 && Free(body, '|') && Closes(after)
    ensures Field(before + (key + (body + after)), key) == Some(body)
    decreases |before|
  {
    var tail := key + (body + after);
    if |before| == 0 {
      assert before + tail == tail;
      assert tail[|key|..] == body + after && tail[|key|] == body[0];
      UpToBarStops(body, after);
    } else {
      assert (before + tail)[1..] == before[1..] + tail;
      MentionsTail(before, key);
      FieldFound(before[1..], key, body, after);
      if HasKey(before + tail, key) {
        KeyOverlap(before, key, body + after);
      }
    }
  }

  /** Printing entries into a field of any notes and reading it back: lower-cased ids, later
      duplicates winning. */
  lemma FieldRoundTrip(before: string, key: string, entries: seq<Entry>, after: string)
    requires IsKey(key) && !Mentions(before, key) && Closes(after)
    requires |entries| > 0 && forall i :: 0 <= i < |entries| ==> ValidId(entries[i].id)
    ensures var blob := Blob(before + (key + (PrintBlob(entries) + after)), key);
            blob != "" && Pairs(Split(blob, ',')) == Meaning(entries)
  {
    PrintBlobFacts(entries);
    FieldFound(before, key, PrintBlob(entries), after);
  }

  lemma KeysAreKeys()
    ensures IsKey(CARRY_KEY) && IsKey(PAUSED_KEY)
  {
  }

  /** The three ways the printed field is read, for any two keys. */
  lemma ReadBack(before: string, entries: seq<Entry>, after: string, carryKey: string, pausedKey: string)
    requires IsKey(carryKey) && IsKey(pausedKey) && Closes(after)
    requires |entries| > 0 && forall i :: 0 <= i < |entries| ==> ValidId(entries[i].id)
    ensures !Mentions(before, carryKey) ==>
      PairsIn(before + (carryKey + (PrintBlob(entries) + after)), carryKey, pausedKey, true) == Meaning(entries)
    ensures !Mentions(before, pausedKey) ==>
      PairsIn(before + (pausedKey + (PrintBlob(entries) + after)), carryKey, pausedKey, false) == Meaning(entries)
    ensures !Mentions(before, pausedKey) && !Mentions(before + (pausedKey + (PrintBlob(entries) + after)), carryKey) ==>
      PairsIn(before + (pausedKey + (PrintBlob(entries) + after)), carryKey, pausedKey, true) == Meaning(entries)
  {
    if !Mentions(before, carryKey) {
      FieldRoundTrip(before, carryKey, entries, after);
    }
    if !Mentions(before, pausedKey) {
      FieldRoundTrip(before, pausedKey, entries, after);
      var notes := before + (pausedKey + (PrintBlob(entries) + after));
      if !Mentions(notes, carryKey) {
        NoField(notes, carryKey);
      }
    }
  }

  /** Printing seconds into the notes and parsing them back: a running session reads its PlayerCarry
      field whatever PausedPlayers says, a paused table reads only PausedPlayers, and a running session
      without PlayerCarry falls back to PausedPlayers; ids come back lower-cased, later entries win. */
  lemma BaselineRoundTrip(before: string, entries: seq<Entry>, after: string)
    requires Closes(after)
    requires |entries| > 0 && forall i :: 0 <= i < |entries| ==> ValidId(entries[i].id)
    ensures !Mentions(before, CARRY_KEY) ==>
      Baselines(before + (CARRY_KEY + (PrintBlob(entries) + after)), true) == Meaning(entries)
    ensures !Mentions(before, PAUSED_KEY) ==>
      Baselines(before + (PAUSED_KEY + (PrintBlob(entries) + after)), false) == Meaning(entries)
    ensures (&& !Mentions(before, PAUSED_KEY)
             && !Mentions(before + (PAUSED_KEY + (PrintBlob(entries) + after)), CARRY_KEY)) ==>
      Baselines(before + (PAUSED_KEY + (PrintBlob(entries) + after)), true) == Meaning(entries)
  {
    KeysAreKeys();
    ReadBack(before, entries, after, CARRY_KEY, PAUSED_KEY);
  }

  lemma {:induction false} NoField(s: string, key: string)
    requires !Mentions(s, key)
    ensures Field(s, key) == None
  {
    if |s| > 0 {
      assert s[0..] == s;
      assert !HasKey(s[0..], key);
      MentionsTail(s, key);
      NoField(s[1..], key);
    }
  }

  /** Entries with distinct lower-cased ids mean exactly the map they were taken from. */
  lemma {:induction false} DistinctMeaning(entries: seq<Entry>)
    requires forall i, j :: 0 <= i < j < |entries| ==> Lower(entries[i].id) != Lower(entries[j].id)
    ensures forall i :: 0 <= i < |entries| ==>
              Lower(entries[i].id) in Meaning(entries) && Meaning(entries)[Lower(entries[i].id)] == entries[i].seconds
    ensures forall id :: id in Meaning(entries) ==> exists i :: 0 <= i < |entries| && Lower(entries[i].id) == id
    decreases |entries|
  {
    hide Lower;
    if |entries| > 0 {
      var init, last := entries[..|entries| - 1], |entries| - 1;
      DistinctMeaning(init);
      forall id | id in Meaning(entries)
        ensures exists i :: 0 <= i < |entries| && Lower(entries[i].id) == id
      {
        if id == Lower(entries[last].id) {
        } else {
          var i :| 0 <= i < |init| && Lower(init[i].id) == id;
          assert Lower(entries[i].id) == id;
        }
      }
    }
  }

  /** A malformed part changes nothing, wherever it stands. */
  lemma {:induction false} MalformedSkipped(before: seq<string>, part: string, after: seq<string>)
    requires ParsePair(part).None?
    ensures Pairs(before + [part] + after) == Pairs(before + after)
    decreases |after|
  {
    hide ParsePair;
    var all, rest := before + [part] + after, before + after;
    if |after| == 0 {
      assert all[..|all| - 1] == rest;
    } else {
      var init := after[..|after| - 1];
      MalformedSkipped(before, part, init);
      assert all[..|all| - 1] == before + [part] + init;
      assert rest[..|rest| - 1] == before + init;
    }
  }
}
