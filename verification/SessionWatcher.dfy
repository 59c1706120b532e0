/** The watcher that polls the terminal sessions and notifies when one starts to
    wait for a confirmation (session_watcher.py). */
module SessionWatcher {
  import opened Text
  import PromptLine

  // ---------------------------------------------------------------------
  // Recognising a prompt
  // ---------------------------------------------------------------------

  /** The two confirmation patterns, ignoring case. */
  predicate IsPrompt(line: string) {
    Contains(Lower(line), "do you want to proceed") || Contains(Lower(line), "[y/n]")
  }

  /** The most recent prompt line of a tail, stripped. */
  method MatchPromptLine(tail: string) returns (line: Option<string>)
    ensures line == LastPrompt(Split(tail, '\n'))
  {
    if tail == "" {
      NoPromptInNothing();
      return None;
    }
    hide IsPrompt, Split;
    var lines := Split(tail, '\n');
    var i := |lines|;
    assert lines[..i] == lines;
    while i > 0
      invariant 0 <= i <= |lines|
      invariant LastPrompt(lines) == LastPrompt(lines[..i])
    {
      i := i - 1;
      assert lines[..i + 1][..i] == lines[..i];
      if IsPrompt(lines[i]) {
        return Some(Strip(lines[i]));
      }
    }
    line := None;
  }

  function LastPrompt(lines: seq<string>): Option<string> {
    if lines == [] then None
    else if IsPrompt(lines[|lines| - 1]) then Some(Strip(lines[|lines| - 1]))
    else LastPrompt(lines[..|lines| - 1])
  }

  lemma NoPromptInNothing()
    ensures LastPrompt(Split("", '\n')) == None
  {
  }

  /** The line found is a prompt line with none after it; none is found only if
      there is none. */
  lemma {:induction false} LastPromptIsLast(lines: seq<string>)
    ensures match LastPrompt(lines)
            case None => forall i :: 0 <= i < |lines| ==> !IsPrompt(lines[i])
            case Some(p) => exists i :: IsLastPromptAt(lines, i) && p == Strip(lines[i])
  {
    hide IsPrompt, Strip;
    if lines == [] {
    } else {
      var n := |lines| - 1;
      if !IsPrompt(lines[n]) {
        LastPromptIsLast(lines[..n]);
        if LastPrompt(lines).Some? {
          var i :| IsLastPromptAt(lines[..n], i) && LastPrompt(lines).value == Strip(lines[..n][i]);
          assert forall j :: i < j < n ==> lines[..n][j] == lines[j];
          assert IsLastPromptAt(lines, i);
        } else {
          assert forall i :: 0 <= i < n ==> lines[..n][i] == lines[i];
        }
      } else {
        assert IsLastPromptAt(lines, n);
      }
    }
  }

  ghost predicate IsLastPromptAt(lines: seq<string>, i: int) {
    0 <= i < |lines| && IsPrompt(lines[i]) && forall j :: i < j < |lines| ==> !IsPrompt(lines[j])
  }

  // ---------------------------------------------------------------------
  // Polls
  // ---------------------------------------------------------------------

  /** What reading a session gave: nothing, or its tail. */
  datatype Read = ReadFailed | Tail(text: string) {
    predicate Prompts() { Tail? && LastPrompt(Split(text, '\n')).Some? }
  }

  datatype Seen = Seen(id: string, read: Read)

  datatype Listing = ListFailed | Listed(sessions: seq<Seen>)

  datatype Mode = Idle | Waiting

  datatype Notice = Notice(id: string, line: string)

  /** What a poll sends out. */
  datatype Sent = Sent(notices: seq<Notice>, changed: bool)

  datatype State = State(modes: map<string, Mode>, previous: Option<set<string>>)

  const INIT: State := State(map[], None)

  function Ids(sessions: seq<Seen>): set<string> { set i | 0 <= i < |sessions| :: sessions[i].id }

  function ModeOf(modes: map<string, Mode>, id: string): Mode { if id in modes then modes[id] else Idle }

  function Observe(modes: map<string, Mode>, s: Seen): map<string, Mode> {
    if s.read.ReadFailed? then modes
    else if s.read.Prompts() then
      if ModeOf(modes, s.id) != Waiting then modes[s.id := Waiting] else modes
    else
      if ModeOf(modes, s.id) != Idle then modes[s.id := Idle] else modes
  }

  function NoticeOf(modes: map<string, Mode>, s: Seen): seq<Notice> {
    if s.read.Prompts() && ModeOf(modes, s.id) != Waiting
    then [Notice(s.id, PromptLine.Sanitize(LastPrompt(Split(s.read.text, '\n')).value))]
    else []
  }

  function ObserveAll(modes: map<string, Mode>, sessions: seq<Seen>): map<string, Mode> {
    if sessions == [] then modes
    else Observe(ObserveAll(modes, sessions[..|sessions| - 1]), sessions[|sessions| - 1])
  }

  function Notices(modes: map<string, Mode>, sessions: seq<Seen>): seq<Notice> {
    if sessions == [] then []
    else
      var front := sessions[..|sessions| - 1];
      Notices(modes, front) + NoticeOf(ObserveAll(modes, front), sessions[|sessions| - 1])
  }

  function Forget(modes: map<string, Mode>, ids: set<string>): map<string, Mode> {
    map id | id in modes && id in ids :: modes[id]
  }

  function Poll(s: State, l: Listing): State {
    match l
    case ListFailed => s
    case Listed(sessions) => State(Forget(ObserveAll(s.modes, sessions), Ids(sessions)), Some(Ids(sessions)))
  }

  function PollSends(s: State, l: Listing): Sent {
    match l
    case ListFailed => Sent([], false)
    case Listed(sessions) => Sent(Notices(s.modes, sessions), s.previous.Some? && s.previous.value != Ids(sessions))
  }

  class Watcher {
    var modes: map<string, Mode>
    var previousIds: Option<set<string>>

    function View(): State
      reads this
    {
      State(modes, previousIds)
    }

    constructor ()
      ensures View() == INIT
    {
      modes, previousIds := map[], None;
    }

    method PollOnce(l: Listing) returns (sent: Sent)
      modifies this
      ensures View() == Poll(old(View()), l) && sent == PollSends(old(View()), l)
    {
      hide LastPrompt, Split, PromptLine.Sanitize;
      if l.ListFailed? {
        return Sent([], false);
      }
      var currentIds := Ids(l.sessions);
      var changed := false;
      if previousIds.None? {
        previousIds := Some(currentIds);
      } else if currentIds != previousIds.value {
        previousIds := Some(currentIds);
        changed := true;
      }
      var notices: seq<Notice> := [];
      ghost var before := modes;
      for i := 0 to |l.sessions|
        invariant modes == ObserveAll(before, l.sessions[..i])
        invariant notices == Notices(before, l.sessions[..i])
        invariant previousIds == Some(currentIds)
      {
        assert l.sessions[..i + 1][..i] == l.sessions[..i];
        var s := l.sessions[i];
        if s.read.Tail? {
          var prompt := MatchPromptLine(s.read.text);
          var prev := ModeOf(modes, s.id);
          if prompt.Some? {
            if prev != Waiting {
              modes := modes[s.id := Waiting];
              notices := notices + [Notice(s.id, PromptLine.Sanitize(prompt.value))];
            }
          } else if prev != Idle {
            modes := modes[s.id := Idle];
          }
        }
      }
      assert l.sessions[..|l.sessions|] == l.sessions;
      modes := Forget(modes, currentIds);
      sent := Sent(notices, changed);
    }
  }

  // ---------------------------------------------------------------------
  // Runs
  // ---------------------------------------------------------------------

  function Run(s: State, polls: seq<Listing>): State {
    if polls == [] then s else Poll(Run(s, polls[..|polls| - 1]), polls[|polls| - 1])
  }

  /** All notices for one session over a run. */
  function CountFor(id: string, notices: seq<Notice>): nat {
    if notices == [] then 0
    else CountFor(id, notices[..|notices| - 1]) + if notices[|notices| - 1].id == id then 1 else 0
  }

  function TotalFor(id: string, s: State, polls: seq<Listing>): nat {
    if polls == [] then 0
    else
      var front := polls[..|polls| - 1];
      TotalFor(id, s, front) + CountFor(id, PollSends(Run(s, front), polls[|polls| - 1]).notices)
  }

  function Changes(s: State, polls: seq<Listing>): nat {
    if polls == [] then 0
    else
      var front := polls[..|polls| - 1];
      Changes(s, front) + if PollSends(Run(s, front), polls[|polls| - 1]).changed then 1 else 0
  }

  // The reference: what was seen of one session, without any state.

  datatype Sighting = Prompt | Clear | Gone

  /** A session's sightings in one listing: one for each successful read, or
      that it is gone.  Failed reads and failed listings show nothing. */
  function SightingsIn(id: string, sessions: seq<Seen>): seq<Sighting> {
    if sessions == [] then []
    else
      var last := sessions[|sessions| - 1];
      SightingsIn(id, sessions[..|sessions| - 1])
      + if last.id == id && last.read.Tail? then [if last.read.Prompts() then Prompt else Clear] else []
  }

  function Sightings(id: string, polls: seq<Listing>): seq<Sighting> {
    if polls == [] then []
    else
      var last := polls[|polls| - 1];
      Sightings(id, polls[..|polls| - 1])
      + if last.ListFailed? then [] else if id in Ids(last.sessions) then SightingsIn(id, last.sessions) else [Gone]
  }

  predicate EndsInPrompt(seen: seq<Sighting>) { seen != [] && seen[|seen| - 1] == Prompt }

  /** How often a prompt comes up: prompts not directly after a prompt. */
  function Rises(seen: seq<Sighting>): nat {
    if seen == [] then 0
    else
      var front := seen[..|seen| - 1];
      Rises(front) + if seen[|seen| - 1] == Prompt && !EndsInPrompt(front) then 1 else 0
  }

  /** How often two successive successful listings differ. */
  function SetChanges(polls: seq<Listing>): nat {
    if polls == [] then 0
    else
      var front, last := polls[..|polls| - 1], polls[|polls| - 1];
      SetChanges(front)
      + if last.Listed? && LastIds(front).Some? && LastIds(front).value != Ids(last.sessions) then 1 else 0
  }

  function LastIds(polls: seq<Listing>): Option<set<string>> {
    if polls == [] then None
    else if polls[|polls| - 1].Listed? then Some(Ids(polls[|polls| - 1].sessions))
    else LastIds(polls[..|polls| - 1])
  }

  // ---------------------------------------------------------------------
  // Results
  // ---------------------------------------------------------------------

  lemma RisesAppend(seen: seq<Sighting>, x: Sighting)
    ensures Rises(seen + [x]) == Rises(seen) + if x == Prompt && !EndsInPrompt(seen) then 1 else 0
    ensures EndsInPrompt(seen + [x]) <==> x == Prompt
  {
  }

  lemma CountAppend(id: string, notices: seq<Notice>, n: Notice)
    ensures CountFor(id, notices + [n]) == CountFor(id, notices) + if n.id == id then 1 else 0
  {
  }

  /** Which lines are prompts: those that hold one of the two phrases, letter by
      letter, in capitals or not. */
  lemma PromptsAre(line: string)
    ensures IsPrompt(line) <==>
            exists i, j :: 0 <= i <= j <= |line| && Lower(line[i..j]) in {"do you want to proceed", "[y/n]"}
  {
    hide LowerChar;
    if IsPrompt(line) {
      var phrase := if Contains(Lower(line), "[y/n]") then "[y/n]" else "do you want to proceed";
      var i :| 0 <= i <= |Lower(line)| && OccursAt(Lower(line), phrase, i);
      LowerSlice(line, i, i + |phrase|);
    }
    if i, j :| 0 <= i <= j <= |line| && Lower(line[i..j]) in {"do you want to proceed", "[y/n]"} {
      LowerSlice(line, i, j);
      assert OccursAt(Lower(line), Lower(line[i..j]), i);
    }
  }

  lemma LowerSlice(s: string, i: nat, j: nat)
    requires i <= j <= |s|
    ensures Lower(s[i..j]) == Lower(s)[i..j]
  {
  }

  /** The notice is about a session whose tail, as read, has a prompt, and
      carries its last prompt line, stripped and sanitised. */
  ghost predicate IsNoticeOf(n: Notice, s: Seen) {
    && s.id == n.id && s.read.Tail?
    && var lines := Split(s.read.text, '\n');
       exists i :: IsLastPromptAt(lines, i) && n.line == PromptLine.Sanitize(Strip(lines[i]))
  }

  /** Every notice of a poll is one of its listing. */
  lemma {:induction false} NoticesAreSanitized(modes: map<string, Mode>, sessions: seq<Seen>, k: nat)
    requires k < |Notices(modes, sessions)|
    ensures exists i :: 0 <= i < |sessions| && IsNoticeOf(Notices(modes, sessions)[k], sessions[i])
    decreases |sessions|
  {
    hide Strip, Split, PromptLine.Sanitize, IsLastPromptAt, LastPrompt;
    var n := |sessions| - 1;
    if k < |Notices(modes, sessions[..n])| {
      NoticesAreSanitized(modes, sessions[..n], k);
      var i :| 0 <= i < n && IsNoticeOf(Notices(modes, sessions[..n])[k], sessions[..n][i]);
      assert IsNoticeOf(Notices(modes, sessions)[k], sessions[i]);
    } else {
      LastPromptIsLast(Split(sessions[n].read.text, '\n'));
      assert IsNoticeOf(Notices(modes, sessions)[k], sessions[n]);
    }
  }

  /** One listing: the notices for a session are the rises among its sightings,
      and its tracked mode is whether the last sighting was a prompt. */
  lemma {:induction false} ListingCounts(id: string, modes: map<string, Mode>, seen: seq<Sighting>, sessions: seq<Seen>)
    requires ModeOf(modes, id) == Waiting <==> EndsInPrompt(seen)
    ensures CountFor(id, Notices(modes, sessions)) + Rises(seen) == Rises(seen + SightingsIn(id, sessions))
    ensures ModeOf(ObserveAll(modes, sessions), id) == Waiting <==> EndsInPrompt(seen + SightingsIn(id, sessions))
    decreases |sessions|
  {
    hide LastPrompt, Split, PromptLine.Sanitize, Rises, EndsInPrompt, CountFor;
    if sessions == [] {
      assert seen + [] == seen;
      CountNothing(id);
    } else {
      var n := |sessions| - 1;
      var front, last := sessions[..n], sessions[n];
      ListingCounts(id, modes, seen, front);
      var soFar := seen + SightingsIn(id, front);
      var before := ObserveAll(modes, front);
      if last.id == id && last.read.Tail? {
        var x := if last.read.Prompts() then Prompt else Clear;
        assert seen + SightingsIn(id, sessions) == soFar + [x];
        RisesAppend(soFar, x);
      } else {
        assert SightingsIn(id, sessions) == SightingsIn(id, front);
      }
      var notice := NoticeOf(before, last);
      if notice != [] {
        assert notice == [notice[0]];
        CountAppend(id, Notices(modes, front), notice[0]);
      } else {
        assert Notices(modes, front) + [] == Notices(modes, front);
      }
    }
  }

  lemma CountNothing(id: string)
    ensures CountFor(id, []) == 0
  {
  }

  /** A session that is not listed has no sightings in the listing. */
  lemma {:induction false} Unlisted(id: string, sessions: seq<Seen>)
    requires forall i :: 0 <= i < |sessions| ==> sessions[i].id != id
    ensures SightingsIn(id, sessions) == []
    decreases |sessions|
  {
    hide LastPrompt, Split;
    if sessions == [] {
    } else {
      Unlisted(id, sessions[..|sessions| - 1]);
    }
  }

  lemma ListedIds(id: string, sessions: seq<Seen>)
    ensures id !in Ids(sessions) ==> forall i :: 0 <= i < |sessions| ==> sessions[i].id != id
  {
  }

  /** Over any run of polls, with failed listings, failed reads, sessions that
      come and go: each session is notified exactly as often as a prompt newly
      comes up in what was seen of it. */
  lemma {:induction false} NotifiedOncePerRise(id: string, polls: seq<Listing>)
    ensures TotalFor(id, INIT, polls) == Rises(Sightings(id, polls))
    ensures ModeOf(Run(INIT, polls).modes, id) == Waiting <==> EndsInPrompt(Sightings(id, polls))
    decreases |polls|
  {
    hide Rises, CountFor, Notices, ObserveAll, SightingsIn, Ids;
    if polls == [] {
      RisesNothing();
    } else {
      var front, last := polls[..|polls| - 1], polls[|polls| - 1];
      NotifiedOncePerRise(id, front);
      var seen, modes := Sightings(id, front), Run(INIT, front).modes;
      if last.ListFailed? {
        assert Sightings(id, polls) == seen;
        CountNothing(id);
      } else {
        ListingCounts(id, modes, seen, last.sessions);
        if id !in Ids(last.sessions) {
          ListedIds(id, last.sessions);
          Unlisted(id, last.sessions);
          assert seen + [] == seen;
          RisesAppend(seen, Gone);
        }
      }
    }
  }

  lemma RisesNothing()
    ensures Rises([]) == 0 && !EndsInPrompt([])
  {
  }

  /** The sessions-changed event fires exactly when a successful listing differs
      from the successful one before it; never on the first. */
  lemma {:induction false} ChangedExactly(polls: seq<Listing>)
    ensures Changes(INIT, polls) == SetChanges(polls)
    ensures Run(INIT, polls).previous == LastIds(polls)
    decreases |polls|
  {
    hide ObserveAll, Notices, Ids, Forget;
    if polls == [] {
    } else {
      ChangedExactly(polls[..|polls| - 1]);
    }
  }
}
