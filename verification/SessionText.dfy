/** The notes text over the life of a table session: what pausing and resuming write, and the proof
    that reading it back always gives the clock of SessionClock. */
module SessionText {
  import opened Basics
  import opened SessionClock
  import opened SessionNotes

  datatype Mark = Started | Elapsed | PausedAt | Segment | Paused | Carry

  const MARKS := [Started, Elapsed, PausedAt, Segment, Paused, Carry]

  function Key(m: Mark): string {
    match m
    case Started => "Session Started:"
    case Elapsed => ELAPSED_KEY
    case PausedAt => "Paused At:"
    case Segment => "Segment Start:"
    case Paused => PAUSED_KEY
    case Carry => CARRY_KEY
  }

  /** The player fields are written without a space after the colon. */
  function Lead(m: Mark): string {
    if m.Paused? || m.Carry? then "" else " "
  }

  // ---------------------------------------------------------------- removing old fields

  /** The literal head of the pattern that removes a field. */
  function Stem(m: Mark): string {
    Key(m) + (if m.Started? || m.Elapsed? then " " else "")
  }

  function Captured(m: Mark, rest: string): string {
    if m.Elapsed? then LeadingDigits(rest) else UpToBar(rest)
  }

  lemma CapturedIsPrefix(m: Mark, rest: string)
    ensures Captured(m, rest) <= rest
  {
    PrefixOf(rest);
  }

  lemma PrefixOf(rest: string)
    ensures UpToBar(rest) <= rest && LeadingDigits(rest) <= rest
  {
  }

  function DropBar(s: string): string {
    if |s| > 0 && s[0] == '|' then s[1..] else s
  }

  /** What follows the match that starts at the head of s, if there is one. */
  function AfterMatch(s: string, m: Mark): (after: Option<string>)
    ensures after.Some? ==> |after.value| < |s|
  {
    if !HasKey(s, Stem(m)) then None
    else
      var rest := s[|Stem(m)|..];
      CapturedIsPrefix(m, rest);
      var body := Captured(m, rest);
      if body == "" then None else Some(DropBar(rest[|body|..]))
  }

  /** s.replace(/Key: [^|]+\|?/gi, ''), with digits only for the elapsed seconds. */
  function Strip(s: string, m: Mark): string
    decreases |s|
  {
    if |s| == 0 then ""
    else match AfterMatch(s, m)
      case Some(after) => Strip(after, m)
      case None => [s[0]] + Strip(s[1..], m)
  }

  function StripAll(s: string, marks: seq<Mark>): string
    decreases |marks|
  {
    if |marks| == 0 then s else StripAll(Strip(s, marks[0]), marks[1..])
  }

  /** The notes without session data, ready for new fields. */
  function Head(notes: string): string {
    var t := Trim(StripAll(notes, MARKS));
    if t != "" && t[|t| - 1] != '|' then t + " | " else t
  }

  // ---------------------------------------------------------------- writing

  /** One written field: its value and what stands between it and the next field. */
  datatype Piece = Piece(mark: Mark, core: string, tail: string)

  function Text(head: string, pieces: seq<Piece>): string
    decreases |pieces|
  {
    if |pieces| == 0 then head
    else
      var p := pieces[0];
      head + (Key(p.mark) + Text(Lead(p.mark) + p.core + p.tail, pieces[1..]))
  }

  /** Fields joined by " | ". */
  function Separated(pieces: seq<Piece>): (r: seq<Piece>)
    ensures |r| == |pieces|
    ensures forall i :: 0 <= i < |r| ==> r[i] == pieces[i].(tail := if i == |r| - 1 then "" else " | ")
  {
    if |pieces| <= 1 then seq(|pieces|, i requires 0 <= i < |pieces| => pieces[i].(tail := ""))
    else [pieces[0].(tail := " | ")] + Separated(pieces[1..])
  }

  function PlayerPiece(m: Mark, blob: string): seq<Piece> {
    if blob == "" then [] else [Piece(m, blob, "")]
  }

  datatype Seat = Seat(id: string, since: int)

  function Snapshot(seated: seq<Seat>, clock: Clock, now: int): (entries: seq<Entry>)
    ensures |entries| == |seated|
    ensures forall i :: 0 <= i < |seated| ==>
      entries[i] == Entry(seated[i].id, PlaySeconds(seated[i].since, clock, now, Lower(seated[i].id)))
  {
    if |seated| == 0 then []
    else
      [Entry(seated[0].id, PlaySeconds(seated[0].since, clock, now, Lower(seated[0].id)))]
      + Snapshot(seated[1..], clock, now)
  }

  function BlobOf(entries: seq<Entry>): string {
    if |entries| == 0 then "" else PrintBlob(entries)
  }

  function ElapsedIn(notes: string): nat {
    match ElapsedDigits(notes)
    case None => 0
    case Some(d) => Number(d)
  }

  function PausedPieces(elapsed: nat, at: string, segment: string, blob: string): seq<Piece> {
    Separated([Piece(Elapsed, Digits(elapsed), ""), Piece(PausedAt, at, ""), Piece(Segment, segment, "")]
              + PlayerPiece(Paused, blob))
  }

  function RunningPieces(start: string, elapsed: nat, blob: string): seq<Piece> {
    Separated([Piece(Started, start, "")]
              + (if elapsed > 0 then [Piece(Elapsed, Digits(elapsed), "")] else [])
              + PlayerPiece(Carry, blob))
  }

  /** Pausing: notes without a started session are left alone. */
  function PauseNotes(notes: string, now: int, seated: seq<Seat>, dateOf: string -> Option<int>,
                      iso: int -> string): string
  {
    match Field(notes, Key(Started))
    case None => notes
    case Some(raw) =>
      var start := match dateOf(Trim(raw)) case None => now case Some(t) => t;
      var elapsed := ElapsedIn(notes) + Max(0, Seconds(now - start));
      var blob := BlobOf(Snapshot(seated, ParseNotes(notes, dateOf), now));
      Text(Head(notes), PausedPieces(elapsed, iso(now), iso(start), blob))
  }

  /** Starting or resuming: the players' seconds are carried over as they stand. */
  function ResumeNotes(notes: string, now: int, iso: int -> string): string {
    Text(Head(notes), RunningPieces(iso(now), ElapsedIn(notes), Blob(notes, Key(Paused))))
  }

  datatype Action = Resume(at: int) | Halt(at: int, seated: seq<Seat>)

  function NotesAfter(first: string, actions: seq<Action>, dateOf: string -> Option<int>, iso: int -> string): string
    decreases |actions|
  {
    if |actions| == 0 then first
    else
      var notes := NotesAfter(first, actions[..|actions| - 1], dateOf, iso);
      match actions[|actions| - 1]
      case Resume(at) => ResumeNotes(notes, at, iso)
      case Halt(at, seated) => PauseNotes(notes, at, seated, dateOf, iso)
  }

  function RosterOf(seated: seq<Seat>): map<Id, int> {
    if |seated| == 0 then map[]
    else RosterOf(seated[..|seated| - 1])[Lower(seated[|seated| - 1].id) := seated[|seated| - 1].since]
  }

  function EventOf(a: Action): Event {
    match a
    case Resume(at) => Start(at)
    case Halt(at, seated) => Pause(at, RosterOf(seated))
  }

  function EventsOf(actions: seq<Action>): (events: seq<Event>)
    ensures |events| == |actions|
    ensures forall i :: 0 <= i < |actions| ==> events[i] == EventOf(actions[i])
  {
    seq(|actions|, i requires 0 <= i < |actions| => EventOf(actions[i]))
  }

  // ---------------------------------------------------------------- where a key can start

  function FromEnd(s: string, off: nat): char
    requires off < |s|
  {
    LowerChar(s[|s| - 1 - off])
  }

  /** The two differ somewhere, read from the end. */
  predicate Apart(written: string, key: string) {
    exists off :: 0 <= off < |written| && off < |key| && FromEnd(written, off) != FromEnd(key, off)
  }

  lemma KeysApart(m: Mark, n: Mark)
    requires m != n
    ensures Apart(Key(m), Key(n))
  {
    var a, b := Key(m), Key(n);
    assert FromEnd(a, 1) != FromEnd(b, 1) || FromEnd(a, 2) != FromEnd(b, 2) || FromEnd(a, 3) != FromEnd(b, 3);
  }

  lemma EveryKeyIsKey(m: Mark)
    ensures IsKey(Key(m)) && |Key(m)| >= 2
    ensures 'a' <= LowerChar(Key(m)[|Key(m)| - 2]) <= 'z'
  {
  }

  /** A key found in a text where another is written is found before it, exactly on it, or after it. */
  lemma WhereKeyStarts(before: string, written: string, rest: string, key: string, i: nat)
    requires IsKey(written) && IsKey(key)
    requires i <= |before + (written + rest)| && HasKey((before + (written + rest))[i..], key)
    ensures Mentions(before, key)
         || (i + |key| == |before| + |written| && !Apart(written, key))
         || i >= |before| + |written|
  {
    var all := before + (written + rest);
    var end, last := i + |key| - 1, |before| + |written| - 1;
    assert forall j :: 0 <= j < |key| ==> all[i..][j] == all[i + j];
    assert forall j :: i <= j <= end ==> LowerChar(all[j]) == LowerChar(key[j - i]);
    assert forall j :: |before| <= j <= last ==> all[j] == written[j - |before|];
    assert all[last] == ':' && all[end] == ':';
    if end < |before| {
      assert forall j :: 0 <= j < |key| ==> before[i..][j] == all[i + j];
      assert HasKey(before[i..], key);
    } else {
      assert end >= last;
      assert end > last ==> i > last;
      if end == last {
        forall off | 0 <= off < |written| && off < |key|
          ensures FromEnd(written, off) == FromEnd(key, off)
        {
          assert all[last - off] == written[|written| - 1 - off];
        }
      }
    }
  }

  /** A key that the text before does not mention starts nowhere before another key that is written
      there, nor inside it. */
  lemma NoEarlyStart(before: string, written: string, rest: string, key: string, i: nat)
    requires IsKey(written) && IsKey(key) && !Mentions(before, key)
    requires (i < |before| && (written == key || Apart(written, key)))
      || (i < |before| + |written| && Apart(written, key))
    ensures !HasKey((before + (written + rest))[i..], key)
  {
    if HasKey((before + (written + rest))[i..], key) {
      WhereKeyStarts(before, written, rest, key, i);
      assert false;
    }
  }

  /** None of the six keys occurs. */
  predicate Silent(s: string) {
    forall m: Mark :: !Mentions(s, Key(m))
  }

  lemma SilentApart(before: string, written: Mark, rest: string, m: Mark)
    requires written != m && !Mentions(before, Key(m)) && !Mentions(rest, Key(m))
    ensures !Mentions(before + (Key(written) + rest), Key(m))
  {
    var all, n := before + (Key(written) + rest), |before| + |Key(written)|;
    KeysApart(written, m);
    EveryKeyIsKey(written);
    EveryKeyIsKey(m);
    hide Key, Apart, IsKey, LowerChar;
    forall i | 0 <= i <= |all|
      ensures !HasKey(all[i..], Key(m))
    {
      if i < n {
        NoEarlyStart(before, Key(written), rest, Key(m), i);
      } else {
        assert all[i..] == rest[i - n..];
      }
    }
  }

  /** No colon directly follows a letter, as in an ISO time. */
  predicate Quiet(s: string) {
    forall i :: 0 < i < |s| && s[i] == ':' ==> !('a' <= LowerChar(s[i - 1]) <= 'z')
  }

  lemma KeyEnds(s: string, m: Mark, i: nat)
    requires i <= |s| && HasKey(s[i..], Key(m))
    ensures var end := i + |Key(m)| - 1;
            0 < end < |s| && s[end] == ':' && 'a' <= LowerChar(s[end - 1]) <= 'z'
  {
    EveryKeyIsKey(m);
    var n := |Key(m)|;
    assert LowerChar(s[i..][n - 1]) == LowerChar(Key(m)[n - 1]) && LowerChar(s[i..][n - 2]) == LowerChar(Key(m)[n - 2]);
  }

  lemma QuietIsSilent(s: string)
    requires Quiet(s)
    ensures Silent(s)
  {
    forall m: Mark, i | 0 <= i <= |s|
      ensures !HasKey(s[i..], Key(m))
    {
      if HasKey(s[i..], Key(m)) {
        KeyEnds(s, m, i);
        assert false;
      }
    }
  }

  /** Text without colons, put at the end, adds no key. */
  lemma SilentExtended(s: string, more: string)
    requires Silent(s) && Free(more, ':')
    ensures Silent(s + more)
  {
    forall m: Mark, i | 0 <= i <= |s + more| && HasKey((s + more)[i..], Key(m))
      ensures i <= |s| && HasKey(s[i..], Key(m))
    {
      KeyEnds(s + more, m, i);
      assert forall j :: 0 <= j < |Key(m)| ==> s[i..][j] == (s + more)[i..][j];
    }
  }

  lemma SilentSlice(s: string, from: nat, to: nat)
    requires Silent(s) && from <= to <= |s|
    ensures Silent(s[from..to])
  {
    var part := s[from..to];
    forall m: Mark, i | 0 <= i <= |part|
      ensures HasKey(part[i..], Key(m)) ==> HasKey(s[from + i..], Key(m))
    {
      assert part[i..] <= s[from + i..];
    }
  }

  lemma {:induction false} LeftTrimmed(s: string) returns (from: nat)
    ensures from <= |s| && TrimLeft(s) == s[from..]
  {
    if |s| > 0 && IsSpace(s[0]) {
      hide IsSpace;
      from := LeftTrimmed(s[1..]);
      assert s[1..][from..] == s[from + 1..];
      from := from + 1;
    } else {
      from := 0;
    }
  }

  lemma {:induction false} RightTrims(t: string) returns (n: nat)
    ensures n <= |t| && TrimRight(t) == t[..n]
    decreases |t|
  {
    if |t| > 0 && IsSpace(t[|t| - 1]) {
      hide IsSpace;
      n := RightTrims(t[..|t| - 1]);
      assert t[..|t| - 1][..n] == t[..n];
    } else {
      n := |t|;
    }
  }

  lemma TrimIsSlice(s: string) returns (from: nat, to: nat)
    ensures from <= to <= |s| && Trim(s) == s[from..to]
  {
    from := LeftTrimmed(s);
    var n := RightTrims(s[from..]);
    to := from + n;
    assert s[from..][..n] == s[from..to];
  }

  // ---------------------------------------------------------------- written notes

  predicate Gap(s: string) {
    forall i :: 0 <= i < |s| ==> s[i] == ' ' || s[i] == '|'
  }

  predicate PieceOk(p: Piece) {
    && Tight(p.core) && Free(p.core, '|') && Quiet(Lead(p.mark) + p.core)
    && (p.mark.Elapsed? ==> AllDigits(p.core))
    && Gap(p.tail)
  }

  predicate DistinctMarks(pieces: seq<Piece>) {
    |pieces| > 0 ==> Lookup(pieces[1..], pieces[0].mark) == None && DistinctMarks(pieces[1..])
  }

  /** Every field but the last is closed by a bar. */
  predicate Linked(pieces: seq<Piece>) {
    forall i :: 0 <= i < |pieces| - 1 ==> '|' in pieces[i].tail
  }

  predicate Fields(pieces: seq<Piece>) {
    && (forall i :: 0 <= i < |pieces| ==> PieceOk(pieces[i]))
    && DistinctMarks(pieces)
    && Linked(pieces)
  }

  predicate Sound(head: string, pieces: seq<Piece>) {
    Silent(head) && Fields(pieces)
  }

  function Lookup(pieces: seq<Piece>, m: Mark): Option<string> {
    if |pieces| == 0 then None
    else if pieces[0].mark == m then Some(pieces[0].core)
    else Lookup(pieces[1..], m)
  }

  lemma PieceSilent(p: Piece)
    requires PieceOk(p)
    ensures Silent(Lead(p.mark) + p.core + p.tail)
  {
    QuietIsSilent(Lead(p.mark) + p.core);
    SilentExtended(Lead(p.mark) + p.core, p.tail);
  }

  lemma SoundTail(head: string, pieces: seq<Piece>)
    requires Sound(head, pieces) && |pieces| > 0
    ensures Sound(Lead(pieces[0].mark) + pieces[0].core + pieces[0].tail, pieces[1..])
  {
    PieceSilent(pieces[0]);
  }

  lemma {:induction false} AbsentIsSilent(head: string, pieces: seq<Piece>, m: Mark)
    requires Sound(head, pieces) && Lookup(pieces, m) == None
    ensures !Mentions(Text(head, pieces), Key(m))
    decreases |pieces|
  {
    if |pieces| > 0 {
      var p := pieces[0];
      SoundTail(head, pieces);
      AbsentIsSilent(Lead(p.mark) + p.core + p.tail, pieces[1..], m);
      SilentApart(head, p.mark, Text(Lead(p.mark) + p.core + p.tail, pieces[1..]), m);
    }
  }

  // ---------------------------------------------------------------- skipping to a field

  /** No occurrence of the key starts inside x. */
  predicate Passes(x: string, rest: string, key: string) {
    forall i :: 0 <= i < |x| ==> !HasKey((x + rest)[i..], key)
  }

  lemma PassesTail(x: string, rest: string, key: string)
    requires Passes(x, rest, key) && |x| > 0
    ensures (x + rest)[1..] == x[1..] + rest
    ensures !HasKey(x + rest, key) && Passes(x[1..], rest, key)
  {
    assert (x + rest)[0..] == x + rest;
    assert (x + rest)[1..] == x[1..] + rest;
    forall i | 0 <= i < |x[1..]|
      ensures !HasKey((x[1..] + rest)[i..], key)
    {
      assert (x[1..] + rest)[i..] == (x + rest)[i + 1..];
    }
  }

  lemma {:induction false} FieldSkips(x: string, rest: string, key: string)
    requires Passes(x, rest, key)
    ensures Field(x + rest, key) == Field(rest, key)
  {
    if |x| == 0 {
      assert x + rest == rest;
    } else {
      PassesTail(x, rest, key);
      FieldSkips(x[1..], rest, key);
    }
  }

  lemma {:induction false} DigitsSkip(x: string, rest: string, key: string)
    requires Passes(x, rest, key)
    ensures DigitsAfter(x + rest, key) == DigitsAfter(rest, key)
  {
    if |x| == 0 {
      assert x + rest == rest;
    } else {
      PassesTail(x, rest, key);
      DigitsSkip(x[1..], rest, key);
    }
  }

  lemma StemHasKey(s: string, m: Mark)
    requires HasKey(s, Stem(m))
    ensures HasKey(s, Key(m))
  {
    assert forall i :: 0 <= i < |Key(m)| ==> Stem(m)[i] == Key(m)[i];
  }

  /** Where no key starts, one character is kept. */
  lemma StripMoves(s: string, m: Mark)
    requires |s| > 0 && !HasKey(s, Key(m))
    ensures Strip(s, m) == [s[0]] + Strip(s[1..], m)
  {
    hide Key;
    if HasKey(s, Stem(m)) {
      StemHasKey(s, m);
      assert false;
    }
  }

  lemma {:induction false} StripSkips(x: string, rest: string, m: Mark)
    requires Passes(x, rest, Key(m))
    ensures Strip(x + rest, m) == x + Strip(rest, m)
  {
    if |x| == 0 {
      assert x + rest == rest;
    } else {
      PassesTail(x, rest, Key(m));
      StripSkips(x[1..], rest, m);
      StripMoves(x + rest, m);
      assert x == [x[0]] + x[1..];
      Reassociate([x[0]], x[1..], Strip(rest, m));
    }
  }

  /** The head of the written notes holds no start of a key, nor does the first field's own key hold a
      start of another. */
  lemma HeadPasses(head: string, written: Mark, rest: string, m: Mark)
    requires Silent(head)
    ensures Passes(head, Key(written) + rest, Key(m))
    ensures written != m ==> Passes(head + Key(written), rest, Key(m))
  {
    EveryKeyIsKey(written);
    EveryKeyIsKey(m);
    if written != m {
      KeysApart(written, m);
    }
    assert (head + Key(written)) + rest == head + (Key(written) + rest);
    forall i | 0 <= i < |head| || (written != m && 0 <= i < |head| + |Key(written)|)
      ensures !HasKey((head + (Key(written) + rest))[i..], Key(m))
    {
      NoEarlyStart(head, Key(written), rest, Key(m), i);
    }
  }

  lemma {:induction false} TextHead(head: string, pieces: seq<Piece>)
    ensures Text(head, pieces) == head + Text("", pieces)
  {
    if |pieces| == 0 {
      assert head + "" == head;
    } else {
      var p := pieces[0];
      var rest := Key(p.mark) + Text(Lead(p.mark) + p.core + p.tail, pieces[1..]);
      assert "" + rest == rest;
    }
  }

  lemma {:induction false} TrimPadded(pad: string, core: string, post: string)
    requires Tight(core)
    requires (forall i :: 0 <= i < |pad| ==> IsSpace(pad[i])) && (forall i :: 0 <= i < |post| ==> IsSpace(post[i]))
    ensures Trim(pad + core + post) == core
    decreases |pad| + |post|
  {
    var s := pad + core + post;
    if |pad| > 0 {
      assert s[1..] == pad[1..] + core + post;
      TrimPadded(pad[1..], core, post);
    } else {
      assert s == core + post;
      RightTrimmed(core, post);
    }
  }

  lemma {:induction false} RightTrimmed(core: string, post: string)
    requires Tight(core) && forall i :: 0 <= i < |post| ==> IsSpace(post[i])
    ensures TrimRight(core + post) == core
    decreases |post|
  {
    var s := core + post;
    if |post| == 0 {
      assert s == core;
    } else {
      assert s[..|s| - 1] == core + post[..|post| - 1];
      RightTrimmed(core, post[..|post| - 1]);
    }
  }

  function FromBar(tail: string): string {
    if |tail| == 0 || tail[0] == '|' then tail else FromBar(tail[1..])
  }

  lemma {:induction false} BarSplits(tail: string)
    ensures tail == UpToBar(tail) + FromBar(tail)
    ensures Closes(FromBar(tail)) && ('|' in tail ==> FromBar(tail) != "")
    ensures Free(UpToBar(tail), '|')
    ensures Gap(tail) ==> forall i :: 0 <= i < |UpToBar(tail)| ==> IsSpace(UpToBar(tail)[i])
  {
    if |tail| > 0 && tail[0] != '|' {
      BarSplits(tail[1..]);
      assert tail == [tail[0]] + tail[1..];
    }
  }

  /** What a pattern captures of a written field, and what follows. */
  function Body(p: Piece): string {
    Lead(p.mark) + p.core + UpToBar(p.tail)
  }

  function After(pieces: seq<Piece>): string
    requires |pieces| > 0
  {
    FromBar(pieces[0].tail) + Text("", pieces[1..])
  }

  lemma FirstField(head: string, pieces: seq<Piece>)
    requires |pieces| > 0
    ensures Text(Lead(pieces[0].mark) + pieces[0].core + pieces[0].tail, pieces[1..]) == Body(pieces[0]) + After(pieces)
    ensures Text(head, pieces) == head + (Key(pieces[0].mark) + (Body(pieces[0]) + After(pieces)))
  {
    hide UpToBar, FromBar, Key, Lead;
    var p := pieces[0];
    BarSplits(p.tail);
    TextHead(Lead(p.mark) + p.core + p.tail, pieces[1..]);
    Reassociate(Lead(p.mark) + p.core, UpToBar(p.tail), FromBar(p.tail));
    Reassociate(Body(p), FromBar(p.tail), Text("", pieces[1..]));
  }

  lemma FirstBody(head: string, pieces: seq<Piece>)
    requires Sound(head, pieces) && |pieces| > 0
    ensures |Body(pieces[0])| > 0 && Free(Body(pieces[0]), '|') && Trim(Body(pieces[0])) == pieces[0].core
    ensures Closes(After(pieces))
  {
    var p := pieces[0];
    BarSplits(p.tail);
    TrimPadded(Lead(p.mark), p.core, UpToBar(p.tail));
    if |pieces| > 1 {
      assert '|' in pieces[0].tail;
    } else {
      assert After(pieces) == FromBar(p.tail);
    }
  }

  lemma Reassociate(a: string, b: string, c: string)
    ensures (a + b) + c == a + (b + c)
  {
  }

  /** A written field is found and read as it was written. */
  lemma {:induction false} FieldOf(head: string, pieces: seq<Piece>, m: Mark)
    requires Sound(head, pieces) && Lookup(pieces, m).Some?
    ensures var f := Field(Text(head, pieces), Key(m)); f.Some? && Trim(f.value) == Lookup(pieces, m).value
    decreases |pieces|
  {
    var p := pieces[0];
    FirstField(head, pieces);
    if p.mark == m {
      EveryKeyIsKey(m);
      FirstBody(head, pieces);
      FieldFound(head, Key(m), Body(p), After(pieces));
    } else {
      SoundTail(head, pieces);
      FieldOf(Lead(p.mark) + p.core + p.tail, pieces[1..], m);
      HeadPasses(head, p.mark, Body(p) + After(pieces), m);
      FieldSkips(head + Key(p.mark), Body(p) + After(pieces), Key(m));
      Reassociate(head, Key(p.mark), Body(p) + After(pieces));
    }
  }

  lemma {:induction false} NoDigits(s: string, key: string)
    requires !Mentions(s, key)
    ensures DigitsAfter(s, key) == None
  {
    if |s| > 0 {
      assert s[0..] == s;
      assert !HasKey(s[0..], key);
      MentionsTail(s, key);
      NoDigits(s[1..], key);
    }
  }

  lemma {:induction false} LeadingRun(digits: string, rest: string)
    requires forall i :: 0 <= i < |digits| ==> IsDigit(digits[i])
    requires |rest| > 0 ==> !IsDigit(rest[0])
    ensures LeadingDigits(digits + rest) == digits
  {
    if |digits| == 0 {
      assert digits + rest == rest;
    } else {
      assert (digits + rest)[1..] == digits[1..] + rest;
      LeadingRun(digits[1..], rest);
      assert digits == [digits[0]] + digits[1..];
    }
  }

  lemma DigitsHere(key: string, digits: string, rest: string)
    requires |key| > 0 && AllDigits(digits) && (|rest| > 0 ==> !IsDigit(rest[0]))
    ensures DigitsAfter(key + (" " + (digits + rest)), key) == Some(digits)
  {
    var s, t := key + (" " + (digits + rest)), " " + (digits + rest);
    assert s[|key|..] == t;
    assert t[1..] == digits + rest;
    assert TrimLeft(t) == digits + rest;
    LeadingRun(digits, rest);
    assert HasKey(s, key);
  }

  lemma {:induction false} ElapsedOf(head: string, pieces: seq<Piece>)
    requires Sound(head, pieces) && Lookup(pieces, Elapsed).Some?
    ensures ElapsedDigits(Text(head, pieces)) == Lookup(pieces, Elapsed)
    decreases |pieces|
  {
    var p, rest := pieces[0], Body(pieces[0]) + After(pieces);
    FirstField(head, pieces);
    HeadPasses(head, p.mark, rest, Elapsed);
    if p.mark == Elapsed {
      DigitsSkip(head, Key(Elapsed) + rest, Key(Elapsed));
      ElapsedRest(head, pieces);
      DigitsHere(Key(Elapsed), p.core, UpToBar(p.tail) + After(pieces));
    } else {
      SoundTail(head, pieces);
      ElapsedOf(Lead(p.mark) + p.core + p.tail, pieces[1..]);
      DigitsSkip(head + Key(p.mark), rest, Key(Elapsed));
      Reassociate(head, Key(p.mark), rest);
    }
  }

  lemma GapHasNoDigit(pad: string, after: string)
    requires (forall i :: 0 <= i < |pad| ==> IsSpace(pad[i])) && Closes(after)
    ensures |pad + after| > 0 ==> !IsDigit((pad + after)[0])
  {
    if |pad| == 0 {
      assert pad + after == after;
    }
  }

  lemma ElapsedRest(head: string, pieces: seq<Piece>)
    requires Sound(head, pieces) && |pieces| > 0 && pieces[0].mark == Elapsed
    ensures var p, more := pieces[0], UpToBar(pieces[0].tail) + After(pieces);
      && Body(p) + After(pieces) == " " + (p.core + more)
      && (|more| > 0 ==> !IsDigit(more[0]))
  {
    var p := pieces[0];
    BarSplits(p.tail);
    FirstBody(head, pieces);
    GapHasNoDigit(UpToBar(p.tail), After(pieces));
    Reassociate(" " + p.core, UpToBar(p.tail), After(pieces));
    Reassociate(" ", p.core, UpToBar(p.tail) + After(pieces));
  }

  // ---------------------------------------------------------------- removing a field

  lemma {:induction false} StripNone(s: string, m: Mark)
    requires !Mentions(s, Key(m))
    ensures Strip(s, m) == s
  {
    if |s| > 0 {
      assert s[0..] == s;
      assert !HasKey(s[0..], Key(m));
      StripMoves(s, m);
      MentionsTail(s, Key(m));
      StripNone(s[1..], m);
      assert s == [s[0]] + s[1..];
    }
  }

  /** What removing a field leaves of it: the gap after it, without one bar if that bar ends it. */
  function Left(p: Piece): string {
    DropBar(if p.mark.Elapsed? then p.tail else FromBar(p.tail))
  }

  lemma {:induction false} FromBarIsGap(tail: string)
    requires Gap(tail)
    ensures Gap(FromBar(tail))
  {
    if |tail| > 0 && tail[0] != '|' {
      FromBarIsGap(tail[1..]);
    }
  }

  /** The pieces without the marked one, and the gap it leaves in the text before them. */
  function DropMark(pieces: seq<Piece>, m: Mark): (string, seq<Piece>)
    decreases |pieces|
  {
    if |pieces| == 0 then ("", [])
    else if pieces[0].mark == m then (Left(pieces[0]), pieces[1..])
    else
      var rest := DropMark(pieces[1..], m);
      ("", [pieces[0].(tail := pieces[0].tail + rest.0)] + rest.1)
  }

  lemma {:induction false} DropSound(pieces: seq<Piece>, m: Mark)
    requires Fields(pieces)
    ensures var d := DropMark(pieces, m);
      && Gap(d.0) && Fields(d.1) && |d.1| <= |pieces|
      && Lookup(d.1, m) == None
      && forall n :: n != m ==> Lookup(d.1, n) == Lookup(pieces, n)
    decreases |pieces|
  {
    if |pieces| > 0 {
      var p, rest := pieces[0], DropMark(pieces[1..], m);
      if p.mark == m {
        FromBarIsGap(p.tail);
      } else {
        DropSound(pieces[1..], m);
        var q, ps := p.(tail := p.tail + rest.0), DropMark(pieces, m).1;
        assert ps[0] == q && ps[1..] == rest.1;
        assert PieceOk(q);
        assert forall i :: 0 < i < |ps| ==> ps[i] == rest.1[i - 1];
        assert |ps| > 1 ==> '|' in p.tail && '|' in q.tail;
      }
    }
  }

  /** The match of the first field takes its key, its value and a bar that ends it. */
  lemma FirstMatch(head: string, pieces: seq<Piece>)
    requires Sound(head, pieces) && |pieces| > 0
    ensures var p := pieces[0];
      AfterMatch(Key(p.mark) + (Body(p) + After(pieces)), p.mark) == Some(Left(p) + Text("", pieces[1..]))
  {
    var p, more := pieces[0], Text("", pieces[1..]);
    FirstBody(head, pieces);
    BarSplits(p.tail);
    if p.mark == Elapsed {
      ElapsedRest(head, pieces);
      MatchedDigits(p.core, UpToBar(p.tail) + After(pieces));
      Reassociate(UpToBar(p.tail), FromBar(p.tail), more);
      DroppedBar(p.tail, more);
    } else {
      MatchedBody(p, After(pieces));
      DroppedBar(FromBar(p.tail), more);
    }
  }

  lemma DroppedBar(s: string, more: string)
    requires |s| > 0 || more == ""
    ensures DropBar(s + more) == DropBar(s) + more
  {
    if |s| > 0 {
      assert (s + more)[1..] == s[1..] + more;
    }
  }

  lemma MatchedDigits(digits: string, rest: string)
    requires AllDigits(digits) && (|rest| > 0 ==> !IsDigit(rest[0]))
    ensures AfterMatch(Key(Elapsed) + (" " + (digits + rest)), Elapsed) == Some(DropBar(rest))
  {
    Reassociate(Key(Elapsed), " ", digits + rest);
    LeadingRun(digits, rest);
    AfterStem(Elapsed, digits + rest);
    assert (digits + rest)[|digits|..] == rest;
  }

  lemma HeadKey(key: string, rest: string)
    ensures HasKey(key + rest, key) && (key + rest)[|key|..] == rest
  {
  }

  lemma AfterStem(m: Mark, t: string)
    requires Captured(m, t) != ""
    ensures |Captured(m, t)| <= |t|
    ensures AfterMatch(Stem(m) + t, m) == Some(DropBar(t[|Captured(m, t)|..]))
  {
    HeadKey(Stem(m), t);
    CapturedIsPrefix(m, t);
  }

  lemma MatchedBody(p: Piece, after: string)
    requires PieceOk(p) && p.mark != Elapsed && Free(Body(p), '|') && Closes(after)
    ensures AfterMatch(Key(p.mark) + (Body(p) + after), p.mark) == Some(DropBar(after))
  {
    var body := if p.mark.Started? then p.core + UpToBar(p.tail) else Body(p);
    StemThenBody(p, after, body);
    UpToBarStops(body, after);
    AfterStem(p.mark, body + after);
    assert (body + after)[|body|..] == after;
  }

  lemma StemThenBody(p: Piece, after: string, body: string)
    requires p.mark != Elapsed
    requires body == if p.mark.Started? then p.core + UpToBar(p.tail) else Body(p)
    ensures Key(p.mark) + (Body(p) + after) == Stem(p.mark) + (body + after)
    ensures Free(Body(p), '|') ==> Free(body, '|')
  {
    var key := Key(p.mark);
    if p.mark.Started? {
      Reassociate(" ", p.core, UpToBar(p.tail));
      Reassociate(" ", body, after);
      Reassociate(key, " ", body + after);
      assert Body(p) == " " + body;
      assert forall i :: 0 <= i < |body| ==> body[i] == Body(p)[i + 1];
    } else {
      assert Stem(p.mark) == key;
    }
  }

  lemma {:induction false} StripText(head: string, pieces: seq<Piece>, m: Mark)
    requires Sound(head, pieces)
    ensures var d := DropMark(pieces, m); Strip(Text(head, pieces), m) == Text(head + d.0, d.1)
    decreases |pieces|
  {
    if |pieces| == 0 {
      StripNone(head, m);
      assert head + "" == head;
    } else {
      var p, rest, d := pieces[0], Body(pieces[0]) + After(pieces), DropMark(pieces, m);
      FirstField(head, pieces);
      HeadPasses(head, p.mark, rest, m);
      if p.mark == m {
        StripSkips(head, Key(m) + rest, m);
        StripFirst(head, pieces);
        TextHead(head + Left(p), pieces[1..]);
        Reassociate(head, Left(p), Text("", pieces[1..]));
      } else {
        StripSkips(head + Key(p.mark), rest, m);
        Reassociate(head, Key(p.mark), rest);
        SoundTail(head, pieces);
        StripText(Lead(p.mark) + p.core + p.tail, pieces[1..], m);
        var r := DropMark(pieces[1..], m);
        Reassociate(Lead(p.mark) + p.core, p.tail, r.0);
        Reassociate(head, Key(p.mark), Strip(rest, m));
        assert d.1[1..] == r.1 && head + d.0 == head;
      }
    }
  }

  lemma StripStep(s: string, m: Mark)
    requires AfterMatch(s, m).Some?
    ensures Strip(s, m) == Strip(AfterMatch(s, m).value, m)
  {
  }

  lemma StripFirst(head: string, pieces: seq<Piece>)
    requires Sound(head, pieces) && |pieces| > 0
    ensures var p := pieces[0];
      Strip(Key(p.mark) + (Body(p) + After(pieces)), p.mark) == Left(p) + Text("", pieces[1..])
  {
    var p, more := pieces[0], Text("", pieces[1..]);
    FirstMatch(head, pieces);
    StripStep(Key(p.mark) + (Body(p) + After(pieces)), p.mark);
    LeftoverSilent(head, pieces);
    StripNone(Left(p) + more, p.mark);
  }

  lemma LeftoverSilent(head: string, pieces: seq<Piece>)
    requires Sound(head, pieces) && |pieces| > 0
    ensures !Mentions(Left(pieces[0]) + Text("", pieces[1..]), Key(pieces[0].mark))
  {
    var p := pieces[0];
    TextHead(Left(p), pieces[1..]);
    FromBarIsGap(p.tail);
    QuietIsSilent(Left(p));
    AbsentIsSilent(Left(p), pieces[1..], p.mark);
  }

  lemma {:induction false} StripAllText(head: string, pieces: seq<Piece>, marks: seq<Mark>)
    returns (head': string, left: seq<Piece>)
    requires Sound(head, pieces)
    ensures StripAll(Text(head, pieces), marks) == Text(head', left) && Sound(head', left)
    ensures forall m :: m in marks || Lookup(pieces, m) == None ==> Lookup(left, m) == None
    decreases |marks|
  {
    if |marks| == 0 {
      head', left := head, pieces;
    } else {
      var m := marks[0];
      var d := DropMark(pieces, m);
      StripText(head, pieces, m);
      DropSound(pieces, m);
      SilentExtended(head, d.0);
      head', left := StripAllText(head + d.0, d.1, marks[1..]);
    }
  }

  lemma NothingLeft(pieces: seq<Piece>)
    requires forall m :: m in MARKS ==> Lookup(pieces, m) == None
    ensures pieces == []
  {
    var m := if |pieces| > 0 then pieces[0].mark else Started;
    assert MARKS[0] == Started && MARKS[1] == Elapsed && MARKS[2] == PausedAt && MARKS[3] == Segment
      && MARKS[4] == Paused && MARKS[5] == Carry;
    assert Lookup(pieces, m) == None;
  }

  /** Whatever was written before, the cleaned notes hold no session data any more. */
  lemma HeadSilent(head: string, pieces: seq<Piece>)
    requires Sound(head, pieces)
    ensures Silent(Head(Text(head, pieces)))
  {
    hide StripAll, Trim, Lookup;
    var head', left := StripAllText(head, pieces, MARKS);
    NothingLeft(left);
    var from, to := TrimIsSlice(head');
    SilentSlice(head', from, to);
    SilentExtended(head'[from..to], " | ");
  }

  // ---------------------------------------------------------------- reading what was written

  /** The time t has an ISO text that the Date parser reads back. */
  predicate Dated(dateOf: string -> Option<int>, iso: int -> string, t: int) {
    Tight(iso(t)) && Free(iso(t), '|') && Quiet(iso(t)) && dateOf(iso(t)) == Some(t)
  }

  predicate Players(entries: seq<Entry>) {
    forall i :: 0 <= i < |entries| ==> ValidId(entries[i].id)
  }

  lemma {:induction false} JoinFree(parts: seq<string>, c: char)
    requires |parts| > 0 && c != ',' && forall i :: 0 <= i < |parts| ==> Free(parts[i], c)
    ensures Free(Join(parts, ','), c)
  {
    if |parts| > 1 {
      JoinFree(parts[1..], c);
    }
  }

  lemma BlobPiece(m: Mark, entries: seq<Entry>)
    requires Players(entries) && |entries| > 0 && (m.Paused? || m.Carry?)
    ensures BlobOf(entries) != "" && PieceOk(Piece(m, BlobOf(entries), ""))
  {
    hide PrintAll, Join, ValidId, Digits;
    PrintBlobFacts(entries);
    forall i | 0 <= i < |entries|
      ensures Free(PrintAll(entries)[i], ':')
    {
      PairHasNoColon(entries[i]);
    }
    JoinFree(PrintAll(entries), ':');
    assert Lead(m) + BlobOf(entries) == BlobOf(entries);
  }

  lemma PairHasNoColon(e: Entry)
    requires ValidId(e.id)
    ensures Free(PrintPair(e), ':')
  {
  }

  lemma DatePiece(m: Mark, t: int, dateOf: string -> Option<int>, iso: int -> string)
    requires Dated(dateOf, iso, t) && (m.Started? || m.PausedAt? || m.Segment?)
    ensures PieceOk(Piece(m, iso(t), ""))
  {
    assert forall i :: 0 < i < |" " + iso(t)| ==> (" " + iso(t))[i] == iso(t)[i - 1];
  }

  lemma SeparatedSound(pieces: seq<Piece>)
    requires forall i :: 0 <= i < |pieces| ==> PieceOk(pieces[i])
    requires DistinctMarks(pieces)
    ensures Fields(Separated(pieces))
    ensures forall m :: Lookup(Separated(pieces), m) == Lookup(pieces, m)
  {
    hide PieceOk, DistinctMarks, Lookup, Separated, Linked;
    SeparatedPieces(pieces);
    SeparatedLookup(pieces);
  }

  lemma GapMark()
    ensures Gap("") && Gap(" | ") && '|' in " | "
  {
    assert " | "[1] == '|';
  }

  lemma Regapped(p: Piece, tail: string)
    requires PieceOk(p) && Gap(tail)
    ensures PieceOk(p.(tail := tail))
  {
    hide Quiet, Free, Tight, AllDigits;
  }

  lemma SeparatedPieces(pieces: seq<Piece>)
    requires forall i :: 0 <= i < |pieces| ==> PieceOk(pieces[i])
    ensures Linked(Separated(pieces))
    ensures forall i :: 0 <= i < |pieces| ==> PieceOk(Separated(pieces)[i])
  {
    hide PieceOk, Gap;
    var r := Separated(pieces);
    var gap := " | ";
    GapMark();
    forall i | 0 <= i < |r|
      ensures PieceOk(r[i])
    {
      Regapped(pieces[i], if i == |r| - 1 then "" else gap);
    }
    forall i | 0 <= i < |r| - 1
      ensures '|' in r[i].tail
    {
      assert r[i].tail == gap;
    }
  }

  lemma {:induction false} SeparatedLookup(pieces: seq<Piece>)
    requires DistinctMarks(pieces)
    ensures DistinctMarks(Separated(pieces))
    ensures forall m :: Lookup(Separated(pieces), m) == Lookup(pieces, m)
    decreases |pieces|
  {
    if |pieces| > 1 {
      SeparatedLookup(pieces[1..]);
      assert Separated(pieces)[1..] == Separated(pieces[1..]);
    } else if |pieces| == 1 {
      assert Separated(pieces)[1..] == pieces[1..];
    }
  }

  lemma Cons(p: Piece, rest: seq<Piece>)
    ensures forall m :: Lookup([p] + rest, m) == if p.mark == m then Some(p.core) else Lookup(rest, m)
    ensures DistinctMarks([p] + rest) <==> Lookup(rest, p.mark) == None && DistinctMarks(rest)
  {
    assert ([p] + rest)[1..] == rest;
  }

  lemma PlayerLookup(m: Mark, blob: string)
    ensures forall n :: Lookup(PlayerPiece(m, blob), n) == if n == m && blob != "" then Some(blob) else None
    ensures DistinctMarks(PlayerPiece(m, blob))
  {
    if blob != "" {
      Cons(Piece(m, blob, ""), []);
      assert [Piece(m, blob, "")] + [] == [Piece(m, blob, "")];
    }
  }

  /** Reading paused notes: the elapsed seconds, both times and every player's seconds come back. */
  lemma ReadPaused(head: string, elapsed: nat, at: int, segment: int, entries: seq<Entry>,
                   dateOf: string -> Option<int>, iso: int -> string)
    requires Silent(head) && Players(entries) && Dated(dateOf, iso, at) && Dated(dateOf, iso, segment)
    ensures var pieces := PausedPieces(elapsed, iso(at), iso(segment), BlobOf(entries));
      && Sound(head, pieces)
      && ParseNotes(Text(head, pieces), dateOf) == Clock(None, elapsed, true, Some(at), Some(segment), Meaning(entries))
  {
    var pieces := PausedPieces(elapsed, iso(at), iso(segment), BlobOf(entries));
    PausedSound(elapsed, at, segment, entries, dateOf, iso);
    var notes := Text(head, pieces);
    AbsentIsSilent(head, pieces, Started);
    NoField(notes, Key(Started));
    ElapsedOf(head, pieces);
    NumberOfDigits(elapsed);
    FieldOf(head, pieces, PausedAt);
    FieldOf(head, pieces, Segment);
    ReadPlayers(head, pieces, Paused, entries);
  }

  lemma PausedSound(elapsed: nat, at: int, segment: int, entries: seq<Entry>, dateOf: string -> Option<int>,
                    iso: int -> string)
    requires Players(entries) && Dated(dateOf, iso, at) && Dated(dateOf, iso, segment)
    ensures var pieces := PausedPieces(elapsed, iso(at), iso(segment), BlobOf(entries));
      && Fields(pieces)
      && Lookup(pieces, Elapsed) == Some(Digits(elapsed)) && Lookup(pieces, PausedAt) == Some(iso(at))
      && Lookup(pieces, Segment) == Some(iso(segment))
      && Lookup(pieces, Paused) == (if |entries| == 0 then None else Some(BlobOf(entries)))
      && Lookup(pieces, Started) == None && Lookup(pieces, Carry) == None
  {
    var e, a, g := Piece(Elapsed, Digits(elapsed), ""), Piece(PausedAt, iso(at), ""), Piece(Segment, iso(segment), "");
    var b := PlayerPiece(Paused, BlobOf(entries));
    DatePiece(PausedAt, at, dateOf, iso);
    DatePiece(Segment, segment, dateOf, iso);
    ElapsedPiece(elapsed);
    if |entries| > 0 {
      BlobPiece(Paused, entries);
    }
    PlayerLookup(Paused, BlobOf(entries));
    Cons(g, b);
    Cons(a, [g] + b);
    Cons(e, [a] + ([g] + b));
    assert [e, a, g] + b == [e] + ([a] + ([g] + b));
    SeparatedSound([e, a, g] + b);
  }

  lemma ElapsedPiece(elapsed: nat)
    ensures PieceOk(Piece(Elapsed, Digits(elapsed), ""))
  {
    var d := Digits(elapsed);
    assert forall i :: 0 < i < |" " + d| ==> (" " + d)[i] == d[i - 1];
  }

  /** The player field under mark m, when it is the only one written. */
  lemma ReadPlayers(head: string, pieces: seq<Piece>, m: Mark, entries: seq<Entry>)
    requires Sound(head, pieces) && Players(entries) && (m.Paused? || m.Carry?)
    requires Lookup(pieces, m) == (if |entries| == 0 then None else Some(BlobOf(entries)))
    requires Lookup(pieces, if m.Paused? then Carry else Paused) == None
    ensures Baselines(Text(head, pieces), m.Carry?) == Meaning(entries)
    ensures Blob(Text(head, pieces), Key(m)) == BlobOf(entries)
  {
    var notes, other := Text(head, pieces), if m.Paused? then Carry else Paused;
    AbsentIsSilent(head, pieces, other);
    NoField(notes, Key(other));
    if |entries| == 0 {
      AbsentIsSilent(head, pieces, m);
      NoField(notes, Key(m));
    } else {
      FieldOf(head, pieces, m);
      PrintBlobFacts(entries);
    }
  }

  lemma RunningSound(start: int, elapsed: nat, entries: seq<Entry>, dateOf: string -> Option<int>, iso: int -> string)
    requires Players(entries) && Dated(dateOf, iso, start)
    ensures var pieces := RunningPieces(iso(start), elapsed, BlobOf(entries));
      && Fields(pieces)
      && Lookup(pieces, Started) == Some(iso(start))
      && Lookup(pieces, Elapsed) == (if elapsed == 0 then None else Some(Digits(elapsed)))
      && Lookup(pieces, Carry) == (if |entries| == 0 then None else Some(BlobOf(entries)))
      && Lookup(pieces, Paused) == None
  {
    hide PieceOk, DistinctMarks, PrintBlob, Sound, Dated, Separated, Digits;
    var s, b := Piece(Started, iso(start), ""), PlayerPiece(Carry, BlobOf(entries));
    var e := if elapsed > 0 then [Piece(Elapsed, Digits(elapsed), "")] else [];
    DatePiece(Started, start, dateOf, iso);
    ElapsedPiece(elapsed);
    if |entries| > 0 {
      BlobPiece(Carry, entries);
    }
    PlayerLookup(Carry, BlobOf(entries));
    if elapsed > 0 {
      Cons(e[0], b);
    } else {
      assert e + b == b;
    }
    Cons(s, e + b);
    assert [s] + e + b == [s] + (e + b);
    SeparatedSound([s] + e + b);
  }

  /** Reading running notes: the start, the carried total and every player's carry come back. */
  lemma ReadRunning(head: string, start: int, elapsed: nat, entries: seq<Entry>, dateOf: string -> Option<int>,
                    iso: int -> string)
    requires Silent(head) && Players(entries) && Dated(dateOf, iso, start)
    ensures var pieces := RunningPieces(iso(start), elapsed, BlobOf(entries));
      && Sound(head, pieces)
      && ParseNotes(Text(head, pieces), dateOf) == Clock(Some(start), elapsed, false, None, None, Meaning(entries))
  {
    var pieces := RunningPieces(iso(start), elapsed, BlobOf(entries));
    RunningSound(start, elapsed, entries, dateOf, iso);
    FieldOf(head, pieces, Started);
    ElapsedReads(head, pieces, elapsed);
    ReadPlayers(head, pieces, Carry, entries);
  }

  lemma ElapsedReads(head: string, pieces: seq<Piece>, elapsed: nat)
    requires Sound(head, pieces)
    requires Lookup(pieces, Elapsed) == Some(Digits(elapsed)) || (elapsed == 0 && Lookup(pieces, Elapsed) == None)
    ensures ElapsedIn(Text(head, pieces)) == elapsed
  {
    if Lookup(pieces, Elapsed).Some? {
      ElapsedOf(head, pieces);
      NumberOfDigits(elapsed);
    } else {
      AbsentIsSilent(head, pieces, Elapsed);
      NoDigits(Text(head, pieces), Key(Elapsed));
    }
  }

  // ---------------------------------------------------------------- the life of the notes

  function Pieces(c: Clock, entries: seq<Entry>, iso: int -> string): seq<Piece>
    requires c.pausedCarry >= 0
  {
    if c.pausedAt.Some? && c.segmentStart.Some? then
      PausedPieces(c.pausedCarry, iso(c.pausedAt.value), iso(c.segmentStart.value), BlobOf(entries))
    else if c.sessionStartedAt.Some? then RunningPieces(iso(c.sessionStartedAt.value), c.pausedCarry, BlobOf(entries))
    else []
  }

  lemma {:induction false} SnapshotMeaning(seated: seq<Seat>, clock: Clock, now: int)
    ensures Meaning(Snapshot(seated, clock, now))
         == map id | id in RosterOf(seated) :: PlaySeconds(RosterOf(seated)[id], clock, now, id)
    decreases |seated|
  {
    if |seated| > 0 {
      var init := seated[..|seated| - 1];
      SnapshotMeaning(init, clock, now);
      assert Snapshot(seated, clock, now)[..|seated| - 1] == Snapshot(init, clock, now);
    }
  }

  predicate Seated(a: Action) {
    a.Halt? ==> forall i :: 0 <= i < |a.seated| ==> ValidId(a.seated[i].id)
  }

  /** A clock that starts and pauses leave: idle, running or paused, with dates that can be read back. */
  predicate ClockDated(c: Clock, dateOf: string -> Option<int>, iso: int -> string) {
    && c.pausedCarry >= 0
    && match (c.sessionStartedAt, c.pausedAt, c.segmentStart)
       case (None, None, None) => c == IDLE
       case (Some(start), None, None) => !c.staffPaused && Dated(dateOf, iso, start)
       case (None, Some(at), Some(segment)) => c.staffPaused && Dated(dateOf, iso, at) && Dated(dateOf, iso, segment)
       case _ => false
  }

  /** The notes are some text without session data followed by the fields of the clock. */
  predicate Follows(notes: string, c: Clock, head: string, entries: seq<Entry>, dateOf: string -> Option<int>,
                    iso: int -> string)
  {
    && Silent(head) && Players(entries) && Meaning(entries) == c.baseline && ClockDated(c, dateOf, iso)
    && Sound(head, Pieces(c, entries, iso))
    && notes == Text(head, Pieces(c, entries, iso))
    && ParseNotes(notes, dateOf) == c
  }

  predicate Recorded(actions: seq<Action>, dateOf: string -> Option<int>, iso: int -> string) {
    forall i :: 0 <= i < |actions| ==> Dated(dateOf, iso, actions[i].at) && Seated(actions[i])
  }

  lemma {:induction false} NotesShape(first: string, actions: seq<Action>, dateOf: string -> Option<int>,
                                      iso: int -> string)
    returns (head: string, entries: seq<Entry>)
    requires Silent(first) && Recorded(actions, dateOf, iso)
    ensures Follows(NotesAfter(first, actions, dateOf, iso), ClockAfter(EventsOf(actions)), head, entries, dateOf, iso)
    decreases |actions|
  {
    hide Follows, Dated, Seated, ResumeNotes, PauseNotes, Silent, ClockStep, EventOf;
    if |actions| == 0 {
      head, entries := first, [];
      NoActions(first, dateOf, iso);
    } else {
      var n := |actions| - 1;
      assert EventsOf(actions[..n]) == EventsOf(actions)[..n];
      assert EventsOf(actions)[n] == EventOf(actions[n]);
      var h, es := NotesShape(first, actions[..n], dateOf, iso);
      head, entries := ActionKeeps(NotesAfter(first, actions[..n], dateOf, iso), ClockAfter(EventsOf(actions[..n])),
                                   h, es, actions[n], dateOf, iso);
    }
  }

  /** One start or pause, on whatever table. */
  lemma ActionKeeps(notes: string, c: Clock, head: string, entries: seq<Entry>, a: Action,
                    dateOf: string -> Option<int>, iso: int -> string)
    returns (head': string, entries': seq<Entry>)
    requires Follows(notes, c, head, entries, dateOf, iso) && Dated(dateOf, iso, a.at) && Seated(a)
    ensures var notes' := match a
                          case Resume(at) => ResumeNotes(notes, at, iso)
                          case Halt(at, seated) => PauseNotes(notes, at, seated, dateOf, iso);
            Follows(notes', ClockStep(c, EventOf(a)), head', entries', dateOf, iso)
  {
    hide Sound, Silent, Text, ParseNotes, ResumeNotes, PauseNotes, Dated, Seated, Players, Head, Snapshot, PlaySeconds,
         RosterOf, Pieces, Meaning;
    match a
    case Resume(at) =>
      head', entries' := Head(notes), if c.staffPaused then entries else [];
      ResumeKeeps(notes, c, head, entries, at, dateOf, iso);
    case Halt(at, seated) =>
      if c.sessionStartedAt.None? {
        head', entries' := head, entries;
        IdleHalt(notes, c, head, entries, at, seated, dateOf, iso);
      } else {
        head', entries' := Head(notes), Snapshot(seated, c, at);
        HaltKeeps(notes, c, head, entries, at, seated, dateOf, iso);
      }
  }

  lemma OnlyEmpty(entries: seq<Entry>, c: Clock)
    requires Meaning(entries) == c.baseline
    ensures c == IDLE ==> entries == []
  {
    if |entries| > 0 {
      assert Lower(entries[|entries| - 1].id) in Meaning(entries);
    }
  }

  lemma NoActions(first: string, dateOf: string -> Option<int>, iso: int -> string)
    requires Silent(first)
    ensures Follows(first, ClockAfter(EventsOf([])), first, [], dateOf, iso)
  {
    ReadIdle(first, dateOf);
  }

  lemma ResumeKeeps(notes: string, c: Clock, head: string, entries: seq<Entry>, at: int, dateOf: string -> Option<int>,
                    iso: int -> string)
    requires Follows(notes, c, head, entries, dateOf, iso) && Dated(dateOf, iso, at)
    ensures Follows(ResumeNotes(notes, at, iso), ClockStep(c, Start(at)), Head(notes),
                    if c.staffPaused then entries else [], dateOf, iso)
  {
    hide Text, Head, ParseNotes, PausedPieces, RunningPieces, Sound, Silent, ElapsedIn, Blob, BlobOf, Key, Meaning,
         Dated, Players;
    OnlyEmpty(entries, c);
    ResumeReads(head, c, entries, dateOf, iso);
    HeadSilent(head, Pieces(c, entries, iso));
    NoEntries();
    ReadRunning(Head(notes), at, c.pausedCarry, if c.staffPaused then entries else [], dateOf, iso);
  }

  lemma NoEntries()
    ensures Meaning([]) == map[] && Players([]) && BlobOf([]) == ""
  {
  }

  /** Pausing a table that is not running leaves the notes alone. */
  lemma IdleHalt(notes: string, c: Clock, head: string, entries: seq<Entry>, at: int, seated: seq<Seat>,
                 dateOf: string -> Option<int>, iso: int -> string)
    requires Follows(notes, c, head, entries, dateOf, iso) && c.sessionStartedAt.None?
    ensures PauseNotes(notes, at, seated, dateOf, iso) == notes
    ensures ClockStep(c, EventOf(Halt(at, seated))) == c
  {
    NotStarted(head, c, entries, dateOf, iso);
    NoField(notes, Key(Started));
  }

  lemma NotStarted(head: string, c: Clock, entries: seq<Entry>, dateOf: string -> Option<int>, iso: int -> string)
    requires Silent(head) && Players(entries) && ClockDated(c, dateOf, iso) && c.sessionStartedAt.None?
    requires Sound(head, Pieces(c, entries, iso))
    ensures !Mentions(Text(head, Pieces(c, entries, iso)), Key(Started))
  {
    hide Silent, Sound, Text, BlobOf, Dated, PausedPieces, Players;
    if c.pausedAt.Some? {
      PausedSound(c.pausedCarry, c.pausedAt.value, c.segmentStart.value, entries, dateOf, iso);
    }
    AbsentIsSilent(head, Pieces(c, entries, iso), Started);
  }

  lemma PauseWrites(notes: string, c: Clock, at: int, seated: seq<Seat>, dateOf: string -> Option<int>,
                    iso: int -> string)
    requires c.sessionStartedAt.Some? && c.pausedCarry >= 0 && ParseNotes(notes, dateOf) == c
    requires ElapsedIn(notes) == c.pausedCarry && Field(notes, Key(Started)).Some?
    requires dateOf(Trim(Field(notes, Key(Started)).value)) == c.sessionStartedAt
    ensures var start := c.sessionStartedAt.value;
      PauseNotes(notes, at, seated, dateOf, iso)
      == Text(Head(notes), PausedPieces(c.pausedCarry + Max(0, Seconds(at - start)), iso(at), iso(start),
                                        BlobOf(Snapshot(seated, c, at))))
  {
    hide Text, Head, ParseNotes, Field, ElapsedIn, Trim, PausedPieces, BlobOf, Snapshot, Key;
  }

  lemma HaltKeeps(notes: string, c: Clock, head: string, entries: seq<Entry>, at: int, seated: seq<Seat>,
                  dateOf: string -> Option<int>, iso: int -> string)
    requires Follows(notes, c, head, entries, dateOf, iso) && c.sessionStartedAt.Some?
    requires Dated(dateOf, iso, at) && Seated(Halt(at, seated))
    ensures Follows(PauseNotes(notes, at, seated, dateOf, iso), ClockStep(c, EventOf(Halt(at, seated))), Head(notes),
                    Snapshot(seated, c, at), dateOf, iso)
  {
    hide Text, Head, ParseNotes, Field, ElapsedIn, Trim, PausedPieces, RunningPieces, BlobOf, Key, PauseNotes,
         PlaySeconds, Sound, Silent, Dated,
         Meaning, ValidId, Snapshot, RosterOf, Fields, Seconds;
    var start := c.sessionStartedAt.value;
    PauseReads(head, c, entries, dateOf, iso);
    HeadSilent(head, Pieces(c, entries, iso));
    SnapshotMeaning(seated, c, at);
    PauseWrites(notes, c, at, seated, dateOf, iso);
    ReadPaused(Head(notes), c.pausedCarry + Max(0, Seconds(at - start)), at, start,
               Snapshot(seated, c, at), dateOf, iso);
  }

  lemma ReadIdle(notes: string, dateOf: string -> Option<int>)
    requires Silent(notes)
    ensures ParseNotes(notes, dateOf) == IDLE && ElapsedIn(notes) == 0 && Blob(notes, Key(Paused)) == ""
  {
    assert !Mentions(notes, Key(Started)) && !Mentions(notes, Key(Elapsed)) && !Mentions(notes, Key(Paused));
    NoField(notes, Key(Started));
    NoDigits(notes, Key(Elapsed));
    NoField(notes, Key(Paused));
  }

  /** What a start reads: the carried total, and the players' seconds of paused notes only. */
  lemma ResumeReads(head: string, c: Clock, entries: seq<Entry>, dateOf: string -> Option<int>, iso: int -> string)
    requires Silent(head) && Players(entries) && ClockDated(c, dateOf, iso) && (c == IDLE ==> entries == [])
    ensures var notes := Text(head, Pieces(c, entries, iso));
      ElapsedIn(notes) == c.pausedCarry && Blob(notes, Key(Paused)) == (if c.staffPaused then BlobOf(entries) else "")
  {
    hide Dated, Text, BlobOf, ElapsedIn, PausedPieces, RunningPieces, Silent;
    var pieces := Pieces(c, entries, iso);
    if c.pausedAt.Some? {
      PausedSound(c.pausedCarry, c.pausedAt.value, c.segmentStart.value, entries, dateOf, iso);
      ElapsedReads(head, pieces, c.pausedCarry);
      ReadPlayers(head, pieces, Paused, entries);
    } else if c.sessionStartedAt.Some? {
      RunningSound(c.sessionStartedAt.value, c.pausedCarry, entries, dateOf, iso);
      ElapsedReads(head, pieces, c.pausedCarry);
      AbsentIsSilent(head, pieces, Paused);
      NoField(Text(head, pieces), Key(Paused));
    } else {
      ReadIdle(head, dateOf);
      TextOfNothing(head);
    }
  }

  lemma TextOfNothing(head: string)
    ensures Text(head, []) == head
  {
  }

  /** What a pause reads in running notes. */
  lemma PauseReads(head: string, c: Clock, entries: seq<Entry>, dateOf: string -> Option<int>, iso: int -> string)
    requires Silent(head) && Players(entries) && c.pausedCarry >= 0
    requires c.sessionStartedAt.Some? && c.pausedAt.None? && Dated(dateOf, iso, c.sessionStartedAt.value)
    ensures var notes := Text(head, Pieces(c, entries, iso));
      && ElapsedIn(notes) == c.pausedCarry
      && Field(notes, Key(Started)).Some?
      && dateOf(Trim(Field(notes, Key(Started)).value)) == c.sessionStartedAt
  {
    var pieces := Pieces(c, entries, iso);
    RunningSound(c.sessionStartedAt.value, c.pausedCarry, entries, dateOf, iso);
    ElapsedReads(head, pieces, c.pausedCarry);
    FieldOf(head, pieces, Started);
  }

  /** Over any number of starts and pauses, in any order and on notes that carry any other text, reading
      the notes gives exactly the clock of the history: no pause or start corrupts what an earlier one
      wrote. */
  lemma NotesFollowClock(first: string, actions: seq<Action>, dateOf: string -> Option<int>, iso: int -> string)
    requires Silent(first) && Recorded(actions, dateOf, iso)
    ensures ParseNotes(NotesAfter(first, actions, dateOf, iso), dateOf) == ClockAfter(EventsOf(actions))
  {
    var head, entries := NotesShape(first, actions, dateOf, iso);
  }

  /** From the text of the notes to the seconds shown: the floored running segments since the player
      sat down, unless the last start that did not continue the player's count credited otherwise. */
  lemma ShownFromNotes(first: string, actions: seq<Action>, dateOf: string -> Option<int>, iso: int -> string,
                       player: Id, since: int, now: int)
    requires Silent(first) && Recorded(actions, dateOf, iso) && |actions| > 0 && WellFormed(EventsOf(actions))
    requires Sits(EventsOf(actions), player, since)
    requires LastAt(EventsOf(actions)) <= now && since <= now
    ensures var events := EventsOf(actions);
            var shown := PlaySeconds(since, ParseNotes(NotesAfter(first, actions, dateOf, iso), dateOf), now, player);
      shown == FlooredSeconds(events, since, now)
      <==> forall i :: LastReset(events, i, since) ==> ResetError(events, i, since, player) == 0
  {
    NotesFollowClock(first, actions, dateOf, iso);
    CorrectUnlessReset(EventsOf(actions), player, since, now);
  }
}
