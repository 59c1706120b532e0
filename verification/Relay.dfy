/** The relay's session object (relay/src/relay-session.ts): one daemon, a few
    clients, a stored pairing token and an inactivity alarm.  Every handler is
    one atomic step, and a socket's disconnect together with its handler is one
    step as well.  Times are milliseconds. */
module Relay {
  import opened Text

  const MAX_CLIENTS: nat := 5

  const SESSION_TIMEOUT: int := 60 * 60 * 1000

  const HEARTBEAT_STALE: int := 90 * 1000

  /** How presented and stored token are compared is left open. */
  type TokenTest = (string, string) -> bool

  datatype Session = Session(
    daemons: set<nat>, clients: set<nat>, token: Option<string>,
    lastActivity: Option<int>, alarm: Option<int>, lastSeen: map<nat, int>)

  const INIT: Session := Session({}, {}, None, None, None, map[])

  /** What a message asks of the relay itself. */
  datatype Message = Ping | Pong | RevokeAll | Forwarded | Dropped

  function Touched(s: Session, now: int): Session {
    s.(lastActivity := Some(now), alarm := Some(now + SESSION_TIMEOUT))
  }

  /** HTTP status of a daemon's upgrade request. */
  function DaemonStatus(s: Session, token: string): nat {
    if |token| < 32 then 401 else if s.daemons != {} then 409 else 101
  }

  function ClientStatus(s: Session, same: TokenTest, token: string): nat {
    if token == "" then 401
    else if s.daemons == {} then 404
    else if s.token.None? || s.token.value == "" || !same(token, s.token.value) then 403
    else if |s.clients| >= MAX_CLIENTS then 429
    else 101
  }

  function DaemonJoins(s: Session, ws: nat, token: string, now: int): Session {
    if DaemonStatus(s, token) == 101
    then Touched(s.(token := Some(token), daemons := s.daemons + {ws}), now)
    else s
  }

  function ClientJoins(s: Session, same: TokenTest, ws: nat, token: string, now: int): Session {
    if ClientStatus(s, same, token) == 101 then Touched(s.(clients := s.clients + {ws}), now) else s
  }

  function Without(s: Session, gone: set<nat>): Session {
    s.(daemons := s.daemons - gone, clients := s.clients - gone, lastSeen := s.lastSeen - gone)
  }

  function ReceivedMessage(s: Session, ws: nat, message: Message, now: int): Session {
    var t := Touched(s, now).(lastSeen := s.lastSeen[ws := now]);
    if message.RevokeAll? && ws in s.daemons then Without(t, s.clients).(token := None) else t
  }

  /** The daemon's socket is gone: the whole session is torn down. */
  function TornDown(s: Session): Session {
    Without(s, s.clients).(token := None, alarm := None)
  }

  function Closed(s: Session, ws: nat): Session {
    if ws in s.daemons then TornDown(Without(s, {ws})) else Without(s, {ws})
  }

  function Failed(s: Session, ws: nat): Session {
    if ws in s.daemons then Without(s, {ws} + s.clients).(alarm := None) else Without(s, {ws})
  }

  predicate Stale(s: Session, ws: nat, now: int) {
    ws in s.lastSeen && s.lastSeen[ws] > 0 && now - s.lastSeen[ws] > HEARTBEAT_STALE
  }

  function Zombies(s: Session, now: int): set<nat> {
    set ws | ws in s.daemons + s.clients && Stale(s, ws, now)
  }

  function Elapsed(s: Session, now: int): int { now - (if s.lastActivity.Some? then s.lastActivity.value else 0) }

  /** The alarm goes off, and is thereby spent: sweep the zombies; then either
      end the session or set the alarm for the time that remains.  A daemon
      whose socket the sweep closes tears its session down. */
  function AlarmFired(s: Session, now: int): Session {
    var swept := Without(s.(alarm := None), Zombies(s, now));
    var t :=
      if Elapsed(s, now) >= SESSION_TIMEOUT then Without(swept, swept.daemons + swept.clients)
      else swept.(alarm := Some(now + (SESSION_TIMEOUT - Elapsed(s, now))));
    if t.daemons != s.daemons then TornDown(t) else t
  }

  // ---------------------------------------------------------------------
  // Runs
  // ---------------------------------------------------------------------

  datatype Step =
    | DaemonUpgrade(ws: nat, token: string, now: int)
    | ClientUpgrade(ws: nat, token: string, now: int)
    | Receive(ws: nat, message: Message, now: int)
    | Close(ws: nat)
    | Error(ws: nat)
    | Alarm(now: int)

  /** A session with what has been observed of it: the token the connected
      daemon presented, and whether access was revoked since a daemon last
      joined. */
  datatype Watched = Watched(session: Session, presented: Option<string>, revoked: bool)

  predicate Enabled(w: Watched, step: Step) {
    var sockets := w.session.daemons + w.session.clients;
    match step
    case DaemonUpgrade(ws, _, _) => ws !in sockets
    case ClientUpgrade(ws, _, _) => ws !in sockets
    case Receive(ws, _, _) => ws in sockets
    case Close(ws) => ws in sockets
    case Error(ws) => ws in sockets
    case Alarm(_) => w.session.alarm.Some?
  }

  function Next(same: TokenTest, w: Watched, step: Step): Watched {
    var s := w.session;
    match step
    case DaemonUpgrade(ws, token, now) =>
      if DaemonStatus(s, token) == 101 then Watched(DaemonJoins(s, ws, token, now), Some(token), false) else w
    case ClientUpgrade(ws, token, now) => w.(session := ClientJoins(s, same, ws, token, now))
    case Receive(ws, message, now) =>
      w.(session := ReceivedMessage(s, ws, message, now),
         revoked := w.revoked || (message.RevokeAll? && ws in s.daemons))
    case Close(ws) => w.(session := Closed(s, ws))
    case Error(ws) => w.(session := Failed(s, ws))
    case Alarm(now) => w.(session := AlarmFired(s, now))
  }

  ghost predicate Legal(same: TokenTest, w: Watched, steps: seq<Step>)
    decreases |steps|
  {
    steps == [] || (Enabled(w, steps[0]) && Legal(same, Next(same, w, steps[0]), steps[1..]))
  }

  function Run(same: TokenTest, w: Watched, steps: seq<Step>): Watched
    requires Legal(same, w, steps)
    decreases |steps|
  {
    if steps == [] then w else Run(same, Next(same, w, steps[0]), steps[1..])
  }

  ghost predicate Inv(w: Watched) {
    var s := w.session;
    && |s.daemons| <= 1 && |s.clients| <= MAX_CLIENTS && s.daemons !! s.clients
    && (s.daemons == {} ==> s.clients == {})
    && (s.daemons != {} ==>
          && w.presented.Some? && |w.presented.value| >= 32 && (s.token == None || s.token == w.presented)
          && s.lastActivity.Some? && s.alarm == Some(s.lastActivity.value + SESSION_TIMEOUT))
    && (w.revoked ==> s.token == None)
  }

  const START: Watched := Watched(INIT, None, false)

  lemma Fewer(a: set<nat>, b: set<nat>)
    requires a <= b
    ensures |a| <= |b|
  {
    if a != b {
      assert |b - a| == |b| - |a|;
    }
  }

  /** Losing sockets keeps the counts, and an only daemon is there or not. */
  lemma FewerSockets(s: Session, gone: set<nat>)
    requires |s.daemons| <= 1
    ensures |s.daemons - gone| <= |s.daemons| && |s.clients - gone| <= |s.clients|
    ensures s.daemons - gone == s.daemons || s.daemons - gone == {}
  {
    Fewer(s.daemons - gone, s.daemons);
    Fewer(s.clients - gone, s.clients);
    if s.daemons !! gone {
      assert s.daemons - gone == s.daemons;
    } else {
      var ws :| ws in s.daemons && ws in gone;
      assert |s.daemons - {ws}| == 0;
      assert s.daemons - gone <= s.daemons - {ws} == {};
    }
  }

  lemma JoinKeeps(same: TokenTest, w: Watched, step: Step)
    requires Inv(w) && Enabled(w, step) && (step.DaemonUpgrade? || step.ClientUpgrade?)
    ensures Inv(Next(same, w, step))
  {
  }

  lemma ReceiveKeeps(same: TokenTest, w: Watched, ws: nat, message: Message, now: int)
    requires Inv(w) && Enabled(w, Receive(ws, message, now))
    ensures Inv(Next(same, w, Receive(ws, message, now)))
  {
  }

  /** What is left when the only daemon closes or fails. */
  lemma DaemonGone(s: Session, ws: nat)
    requires |s.daemons| <= 1 && ws in s.daemons && s.daemons !! s.clients
    ensures Closed(s, ws).daemons == {} && Closed(s, ws).clients == {} && Closed(s, ws).token == None
    ensures Failed(s, ws).daemons == {} && Failed(s, ws).clients == {} && Failed(s, ws).token == s.token
    ensures Closed(s, ws).alarm == Failed(s, ws).alarm == None
  {
    FewerSockets(s, {ws});
  }

  lemma ClientGone(s: Session, ws: nat)
    requires |s.daemons| <= 1 && ws !in s.daemons
    ensures Closed(s, ws) == Failed(s, ws) == s.(clients := s.clients - {ws}, lastSeen := s.lastSeen - {ws})
    ensures |s.clients - {ws}| <= |s.clients|
  {
  }

  lemma GoneKeeps(w: Watched, ws: nat)
    requires Inv(w) && ws in w.session.daemons + w.session.clients
    ensures Inv(w.(session := Closed(w.session, ws))) && Inv(w.(session := Failed(w.session, ws)))
  {
    hide Closed, Failed;
    if ws in w.session.daemons {
      DaemonGone(w.session, ws);
    } else {
      ClientGone(w.session, ws);
    }
  }

  /** After the alarm the session is empty, or it has its daemon still and the
      alarm is set again for the same moment. */
  lemma AlarmOutcome(s: Session, now: int)
    requires |s.daemons| <= 1 && s.daemons !! s.clients && (s.daemons == {} ==> s.clients == {})
    ensures var t := AlarmFired(s, now);
            || (t.daemons == {} && t.clients == {} && (t.token == s.token || t.token == None))
            || (t.daemons == s.daemons && t.clients <= s.clients && t.token == s.token
                && t.lastActivity == s.lastActivity && t.alarm == Some(now + (SESSION_TIMEOUT - Elapsed(s, now))))
  {
    hide Zombies;
    FewerSockets(s, Zombies(s, now));
    NobodyLeft(s.daemons - Zombies(s, now), s.clients - Zombies(s, now));
  }

  lemma NobodyLeft(daemons: set<nat>, clients: set<nat>)
    ensures daemons - (daemons + clients) == {} && clients - (daemons + clients) == {}
    ensures clients - clients == {} && {} - clients == {}
    ensures {} - (daemons + clients) == {}
  {
  }

  lemma AlarmKeeps(w: Watched, now: int)
    requires Inv(w)
    ensures Inv(w.(session := AlarmFired(w.session, now)))
  {
    hide AlarmFired;
    AlarmOutcome(w.session, now);
    var t := AlarmFired(w.session, now);
    if t.clients <= w.session.clients {
      Fewer(t.clients, w.session.clients);
    }
  }

  lemma NextKeeps(same: TokenTest, w: Watched, step: Step)
    requires Inv(w) && Enabled(w, step)
    ensures Inv(Next(same, w, step))
  {
    hide Inv, AlarmFired, Closed, Failed, ReceivedMessage, ClientJoins, DaemonJoins;
    match step
    case DaemonUpgrade(_, _, _) => JoinKeeps(same, w, step);
    case ClientUpgrade(_, _, _) => JoinKeeps(same, w, step);
    case Receive(ws, message, now) => ReceiveKeeps(same, w, ws, message, now);
    case Close(ws) => GoneKeeps(w, ws);
    case Error(ws) => GoneKeeps(w, ws);
    case Alarm(now) => AlarmKeeps(w, now);
  }

  lemma {:induction false} RunKeeps(same: TokenTest, w: Watched, steps: seq<Step>)
    requires Inv(w) && Legal(same, w, steps)
    ensures Inv(Run(same, w, steps))
    decreases |steps|
  {
    hide Inv, Next, Enabled;
    if steps == [] {
    } else {
      NextKeeps(same, w, steps[0]);
      RunKeeps(same, Next(same, w, steps[0]), steps[1..]);
    }
  }

  ghost predicate Reachable(same: TokenTest, w: Watched) {
    exists steps :: Legal(same, START, steps) && Run(same, START, steps) == w
  }

  lemma ReachableInv(same: TokenTest, w: Watched)
    requires Reachable(same, w)
    ensures Inv(w)
  {
    hide Legal, Run;
    var steps :| Legal(same, START, steps) && Run(same, START, steps) == w;
    RunKeeps(same, START, steps);
  }

  // ---------------------------------------------------------------------
  // Results
  // ---------------------------------------------------------------------

  /** At most one daemon, at most five clients, and clients only with it. */
  lemma SocketBounds(same: TokenTest, w: Watched)
    requires Reachable(same, w)
    ensures |w.session.daemons| <= 1 && |w.session.clients| <= 5
    ensures w.session.daemons == {} ==> w.session.clients == {}
  {
    ReachableInv(same, w);
  }

  /** While a daemon is connected, no token but its own (of 32 characters at
      least) opens the session, and the alarm stands one hour after the last
      activity. */
  lemma WhileDaemonConnected(same: TokenTest, w: Watched)
    requires Reachable(same, w) && w.session.daemons != {}
    ensures w.presented.Some? && |w.presented.value| >= 32
    ensures w.session.token == None || w.session.token == w.presented
    ensures w.session.lastActivity.Some?
    ensures w.session.alarm == Some(w.session.lastActivity.value + 3_600_000)
  {
    ReachableInv(same, w);
  }

  /** A daemon that closes or fails leaves an empty session behind. */
  lemma DaemonGoneLeavesNobody(same: TokenTest, w: Watched, step: Step)
    requires Reachable(same, w) && Enabled(w, step)
    requires (step.Close? || step.Error?) && step.ws in w.session.daemons
    ensures var s := Next(same, w, step).session;
            s.daemons == {} && s.clients == {} && s.alarm == None
  {
    ReachableInv(same, w);
    DaemonGone(w.session, step.ws);
  }

  /** A client is admitted exactly if a daemon is connected whose stored token
      its own passes the test against, and there is room; otherwise nothing
      changes, and the status tells the first obstacle. */
  lemma AdmittedExactly(same: TokenTest, w: Watched, ws: nat, token: string, now: int)
    requires Reachable(same, w) && Enabled(w, ClientUpgrade(ws, token, now))
    ensures var s, t := w.session, Next(same, w, ClientUpgrade(ws, token, now)).session;
            var passes := s.token.Some? && s.token.value != "" && same(token, s.token.value);
            && (if token != "" && s.daemons != {} && passes && |s.clients| < 5
                then t == s.(clients := s.clients + {ws}, lastActivity := Some(now), alarm := Some(now + 3_600_000))
                else t == s)
            && (ws in t.clients ==>
                  w.presented.Some? && same(token, w.presented.value) && ClientStatus(s, same, token) == 101)
            && (ClientStatus(s, same, token) == 401 <==> token == "")
            && (ClientStatus(s, same, token) == 404 <==> token != "" && s.daemons == {})
            && (ClientStatus(s, same, token) == 403 <==> token != "" && s.daemons != {} && !passes)
            && (ClientStatus(s, same, token) == 429 <==> token != "" && s.daemons != {} && passes && |s.clients| >= 5)
  {
    ReachableInv(same, w);
  }

  /** A daemon joins exactly with a token of 32 characters or more and no other
      daemon there; its token then replaces the stored one. */
  lemma DaemonJoinsExactly(same: TokenTest, w: Watched, ws: nat, token: string, now: int)
    requires Reachable(same, w) && Enabled(w, DaemonUpgrade(ws, token, now))
    ensures var s, v := w.session, Next(same, w, DaemonUpgrade(ws, token, now));
            && (if |token| >= 32 && s.daemons == {}
                then v == Watched(Session({ws}, {}, Some(token), Some(now), Some(now + 3_600_000), s.lastSeen),
                                  Some(token), false)
                else v == w)
            && (DaemonStatus(s, token) == 101 <==> |token| >= 32 && s.daemons == {})
            && (DaemonStatus(s, token) == 401 <==> |token| < 32)
            && (DaemonStatus(s, token) == 409 <==> |token| >= 32 && s.daemons != {})
  {
    ReachableInv(same, w);
    assert {} + {ws} == {ws};
  }

  /** A message is activity of its sender; it closes sockets only if it is the
      daemon's revocation. */
  lemma MessageIsActivity(same: TokenTest, w: Watched, ws: nat, message: Message, now: int)
    requires Reachable(same, w) && Enabled(w, Receive(ws, message, now))
    ensures var s, t := w.session, Next(same, w, Receive(ws, message, now)).session;
            && t.lastActivity == Some(now) && t.alarm == Some(now + 3_600_000)
            && ws in t.lastSeen && t.lastSeen[ws] == now && t.daemons == s.daemons
            && (if message == RevokeAll && ws in s.daemons
                then t.clients == {} && t.token == None
                else t.clients == s.clients && t.token == s.token)
  {
    ReachableInv(same, w);
    assert w.session.daemons - w.session.clients == w.session.daemons;
  }

  /** A client's close or error takes that client alone; a daemon's takes all,
      and the stored token too if it is a close. */
  lemma SocketGoneExactly(same: TokenTest, w: Watched, step: Step)
    requires Reachable(same, w) && Enabled(w, step) && (step.Close? || step.Error?)
    ensures var s, t := w.session, Next(same, w, step).session;
            if step.ws in s.daemons
            then t.daemons == {} && t.clients == {} && t.alarm == None
                 && t.token == (if step.Close? then None else s.token)
            else t == s.(clients := s.clients - {step.ws}, lastSeen := s.lastSeen - {step.ws})
  {
    ReachableInv(same, w);
    hide Closed, Failed;
    if step.ws in w.session.daemons {
      DaemonGone(w.session, step.ws);
    } else {
      ClientGone(w.session, step.ws);
    }
  }

  predicate Silent(s: Session, ws: nat, now: int) {
    ws in s.lastSeen && 0 < s.lastSeen[ws] < now - 90_000
  }

  /** The alarm closes everything after an hour without activity, or if the
      daemon has been silent for more than 90 seconds; otherwise it closes the
      silent clients and is set again for the end of the hour. */
  lemma AlarmExactly(same: TokenTest, w: Watched, now: int)
    requires Reachable(same, w) && w.session.daemons != {}
    ensures var s, t := w.session, Next(same, w, Alarm(now)).session;
            s.lastActivity.Some? &&
            if now - s.lastActivity.value >= 3_600_000 || (exists d :: d in s.daemons && Silent(s, d, now))
            then t.daemons == {} && t.clients == {}
            else t.daemons == s.daemons && t.alarm == Some(s.lastActivity.value + 3_600_000) && t.token == s.token
                 && forall ws :: ws in t.clients <==> ws in s.clients && !Silent(s, ws, now)
  {
    ReachableInv(same, w);
    var s := w.session;
    SweepSilences(s, now);
    hide Reachable, Zombies, Silent, AlarmFired;
    if Elapsed(s, now) >= SESSION_TIMEOUT || s.daemons - Zombies(s, now) == {} {
      AlarmEnds(s, now);
    } else {
      AlarmGoesOn(s, now);
    }
  }

  lemma AlarmEnds(s: Session, now: int)
    requires |s.daemons| <= 1 && s.daemons != {}
    requires Elapsed(s, now) >= SESSION_TIMEOUT || s.daemons - Zombies(s, now) == {}
    ensures AlarmFired(s, now).daemons == {} && AlarmFired(s, now).clients == {}
  {
    hide Zombies;
    NobodyLeft(s.daemons - Zombies(s, now), s.clients - Zombies(s, now));
  }

  lemma AlarmGoesOn(s: Session, now: int)
    requires Elapsed(s, now) < SESSION_TIMEOUT && s.daemons - Zombies(s, now) == s.daemons
    ensures var t := AlarmFired(s, now);
            && t.daemons == s.daemons && t.clients == s.clients - Zombies(s, now) && t.token == s.token
            && t.alarm == Some(now + (SESSION_TIMEOUT - Elapsed(s, now)))
  {
    hide Zombies;
  }

  /** The sweep takes the silent sockets, and the only daemon if it is one. */
  lemma SweepSilences(s: Session, now: int)
    requires |s.daemons| <= 1
    ensures if exists d :: d in s.daemons && Silent(s, d, now)
            then s.daemons != {} && s.daemons - Zombies(s, now) == {}
            else s.daemons - Zombies(s, now) == s.daemons
    ensures forall ws :: ws in s.clients - Zombies(s, now) <==> ws in s.clients && !Silent(s, ws, now)
  {
    assert forall ws :: ws in Zombies(s, now) <==> ws in s.daemons + s.clients && Silent(s, ws, now);
    FewerSockets(s, Zombies(s, now));
    if d :| d in s.daemons && Silent(s, d, now) {
      assert d !in s.daemons - Zombies(s, now);
    }
  }

  ghost predicate NoDaemonUpgrade(same: TokenTest, w: Watched, steps: seq<Step>)
    requires Legal(same, w, steps)
    decreases |steps|
  {
    steps == [] ||
    (!(steps[0].DaemonUpgrade? && DaemonStatus(w.session, steps[0].token) == 101)
     && NoDaemonUpgrade(same, Next(same, w, steps[0]), steps[1..]))
  }

  /** After the daemon has revoked access, no run without a new daemon upgrade
      lets a client in, whatever token it presents. */
  lemma {:induction false} RevokedStaysShut(same: TokenTest, w: Watched, steps: seq<Step>, token: string)
    requires Inv(w) && w.revoked && Legal(same, w, steps) && NoDaemonUpgrade(same, w, steps)
    ensures ClientStatus(Run(same, w, steps).session, same, token) != 101
    decreases |steps|
  {
    if steps == [] {
    } else {
      NextKeeps(same, w, steps[0]);
      RevokedStaysShut(same, Next(same, w, steps[0]), steps[1..], token);
    }
  }

  /** A revocation by the daemon empties the session of clients at once. */
  lemma RevokeShuts(same: TokenTest, w: Watched, ws: nat, now: int)
    requires Reachable(same, w) && ws in w.session.daemons
    ensures var v := Next(same, w, Receive(ws, RevokeAll, now));
            v.revoked && v.session.clients == {} && v.session.daemons == w.session.daemons && v.session.token == None
  {
    ReachableInv(same, w);
    assert w.session.daemons - w.session.clients == w.session.daemons;
  }

  // ---------------------------------------------------------------------
  // The object
  // ---------------------------------------------------------------------

  class RelaySession {
    const same: TokenTest
    var daemons: set<nat>
    var clients: set<nat>
    var token: Option<string>
    var lastActivity: Option<int>
    var alarm: Option<int>
    var lastSeen: map<nat, int>

    function View(): Session
      reads this
    {
      Session(daemons, clients, token, lastActivity, alarm, lastSeen)
    }

    constructor (same: TokenTest)
      ensures View() == INIT && this.same == same
    {
      this.same := same;
      daemons, clients, token, lastActivity, alarm, lastSeen := {}, {}, None, None, None, map[];
    }

    method TouchActivity(now: int)
      modifies this`lastActivity, this`alarm
      ensures View() == Touched(old(View()), now)
    {
      lastActivity := Some(now);
      alarm := Some(now + SESSION_TIMEOUT);
    }

    method HandleDaemonUpgrade(ws: nat, presented: string, now: int) returns (status: nat)
      modifies this
      ensures status == DaemonStatus(old(View()), presented)
      ensures View() == DaemonJoins(old(View()), ws, presented, now)
    {
      if |presented| < 32 {
        return 401;
      }
      if |daemons| > 0 {
        return 409;
      }
      token := Some(presented);
      daemons := daemons + {ws};
      TouchActivity(now);
      status := 101;
    }

    method HandleClientUpgrade(ws: nat, presented: string, now: int) returns (status: nat)
      modifies this
      ensures status == ClientStatus(old(View()), same, presented)
      ensures View() == ClientJoins(old(View()), same, ws, presented, now)
    {
      if presented == "" {
        return 401;
      }
      if |daemons| == 0 {
        return 404;
      }
      if token.None? || token.value == "" || !same(presented, token.value) {
        return 403;
      }
      if |clients| >= MAX_CLIENTS {
        return 429;
      }
      clients := clients + {ws};
      TouchActivity(now);
      status := 101;
    }

    /** Closes the clients one by one. */
    method DisconnectAllClients()
      modifies this`clients, this`daemons, this`lastSeen
      ensures View() == Without(old(View()), old(clients))
    {
      Disconnect(clients);
    }

    method Disconnect(sockets: set<nat>)
      modifies this`clients, this`daemons, this`lastSeen
      ensures View() == Without(old(View()), sockets)
    {
      var todo := sockets;
      ghost var closed: set<nat> := {};
      while todo != {}
        invariant todo + closed == sockets
        invariant daemons == old(daemons) - closed && clients == old(clients) - closed
        invariant lastSeen == old(lastSeen) - closed
        decreases |todo|
      {
        var ws: nat :| ws in todo;
        todo := todo - {ws};
        closed := closed + {ws};
        daemons, clients, lastSeen := daemons - {ws}, clients - {ws}, lastSeen - {ws};
      }
    }

    method WebSocketMessage(ws: nat, message: Message, now: int)
      modifies this
      ensures View() == ReceivedMessage(old(View()), ws, message, now)
    {
      TouchActivity(now);
      lastSeen := lastSeen[ws := now];
      if message.RevokeAll? && ws in daemons {
        DisconnectAllClients();
        token := None;
      }
    }

    method WebSocketClose(ws: nat)
      modifies this
      ensures View() == Closed(old(View()), ws)
    {
      var isDaemon := ws in daemons;
      Disconnect({ws});
      if isDaemon {
        DisconnectAllClients();
        token := None;
        alarm := None;
      }
    }

    method WebSocketError(ws: nat)
      modifies this
      ensures View() == Failed(old(View()), ws)
    {
      var isDaemon := ws in daemons;
      Disconnect({ws});
      if isDaemon {
        DisconnectAllClients();
        alarm := None;
        WithoutTwice(old(View()), {ws}, old(clients));
      }
    }

    method FireAlarm(now: int)
      modifies this
      ensures View() == AlarmFired(old(View()), now)
    {
      hide Without, Zombies;
      var before := daemons;
      alarm := None;
      Disconnect(Zombies(View(), now));
      assert View() == Without(old(View()).(alarm := None), Zombies(old(View()), now)) by {
        SameZombies(old(View()), now);
      }
      var elapsed := now - (if lastActivity.Some? then lastActivity.value else 0);
      if elapsed >= SESSION_TIMEOUT {
        Disconnect(daemons + clients);
      } else {
        alarm := Some(now + (SESSION_TIMEOUT - elapsed));
      }
      if daemons != before {
        DisconnectAllClients();
        token := None;
        alarm := None;
      }
    }
  }

  lemma SameZombies(s: Session, now: int)
    ensures Zombies(s.(alarm := None), now) == Zombies(s, now)
  {
  }

  lemma WithoutTwice(s: Session, a: set<nat>, b: set<nat>)
    ensures Without(Without(s, a), b - a) == Without(s, a + b)
  {
  }
}
