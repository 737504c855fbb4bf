/** The peer table's failure detector: what one peer goes through, and when. */
module FailureDetector {
  import opened Tasks
  import opened Nodes

  datatype PeerStatus = Alive | Suspected | Dead

  datatype Peer = Peer(lastSeen: int, status: PeerStatus, load: real, latency: int)

  datatype Timeouts = Timeouts(suspicion: int, failure: int)

  /** What can happen to one peer; information about it from third parties is not
      part of this model. */
  datatype Event =
    | Added(now: int)          // AddPeer
    | Answered(now: int)       // a reply to a message or a health check
    // Its own gossip message arrived, with what it said about its load and latency.
    | Gossiped(now: int, load: Option<real>, latency: Option<int>)
    | Doubted                  // a message or a health check failed
    | Removed                  // RemovePeer
    | Tick(now: int)           // the detector ran

  const GRACE: int := 300 * SECOND

  function Ticked(t: Timeouts, p: Peer, now: int): Option<Peer> {
    var silence := now - p.lastSeen;
    match p.status
    case Alive => Some(if silence > t.suspicion then p.(status := Suspected) else p)
    case Suspected => Some(if silence > t.failure then p.(status := Dead) else p)
    case Dead => if silence > GRACE then None else Some(p)
  }

  /** What the message says, or else what was known. */
  function Told<T>(said: Option<T>, known: T): T {
    if said.Some? then said.value else known
  }

  /** A peer that is not listed is None. */
  function After(t: Timeouts, p: Option<Peer>, e: Event): Option<Peer> {
    match e
    case Added(now) => Some(Peer(now, Alive, 0.0, 0))
    case Answered(now) => if p == None then None else Some(p.value.(lastSeen := now, status := Alive))
    case Gossiped(now, load, latency) =>
      if p == None then Some(Peer(now, Alive, 0.0, 0))
      else Some(Peer(now, Alive, Told(load, p.value.load), Told(latency, p.value.latency)))
    case Doubted => if p == None then None else Some(p.value.(status := Suspected))
    case Removed => None
    case Tick(now) => if p == None then None else Ticked(t, p.value, now)
  }

  function Run(t: Timeouts, p: Option<Peer>, h: seq<Event>): Option<Peer> {
    if h == [] then p else After(t, Run(t, p, h[..|h| - 1]), h[|h| - 1])
  }

  // ---------- From the history alone ----------

  predicate IsContact(e: Event) {
    e.Added? || e.Answered? || e.Gossiped?
  }

  function LastContact(h: seq<Event>): Option<int> {
    if h == [] then None
    else if IsContact(h[|h| - 1]) then Some(h[|h| - 1].now)
    else LastContact(h[..|h| - 1])
  }

  /** A contact failed, or the detector found the peer silent for too long, since the last contact. */
  predicate DoubtedSinceContact(t: Timeouts, h: seq<Event>) {
    h != [] &&
    match h[|h| - 1]
    case Doubted => true
    case Removed => false
    case Tick(now) =>
      var before := h[..|h| - 1];
      DoubtedSinceContact(t, before) ||
      (LastContact(before).Some? && now - LastContact(before).value > t.suspicion)
    case _ => false
  }

  lemma {:induction false} PeerFromHistory(t: Timeouts, h: seq<Event>)
    ensures var p := Run(t, None, h);
            p.Some? ==>
              LastContact(h) == Some(p.value.lastSeen) &&
              (p.value.status != Alive ==> DoubtedSinceContact(t, h))
    decreases |h|
  {
    if h != [] {
      PeerFromHistory(t, h[..|h| - 1]);
    }
  }

  predicate ClockRuns(h: seq<Event>) {
    forall i, j :: 0 <= i < j < |h| && IsContact(h[i]) && IsContact(h[j]) ==> h[i].now <= h[j].now
  }

  lemma {:induction false} LastContactIsLatest(h: seq<Event>, e: Event)
    requires ClockRuns(h) && e in h && IsContact(e)
    ensures LastContact(h).Some? && e.now <= LastContact(h).value
    decreases |h|
  {
    var n := |h| - 1;
    var k :| 0 <= k < |h| && h[k] == e;
    if IsContact(h[n]) {
      assert k == n || h[k].now <= h[n].now;
    } else {
      assert h[..n][k] == e;
      LastContactIsLatest(h[..n], e);
    }
  }

  predicate DeclaredDead(t: Timeouts, p: Option<Peer>, e: Event) {
    (p.Some? ==> p.value.status != Dead) && After(t, p, e).Some? && After(t, p, e).value.status == Dead
  }

  /** Safety: a peer is declared dead only by a run of the detector, only if it was
      already suspected since its last contact, and only if no contact of any kind
      took place within the failure timeout. */
  lemma DeathIsJustified(t: Timeouts, h: seq<Event>, e: Event)
    requires ClockRuns(h) && DeclaredDead(t, Run(t, None, h), e)
    ensures e.Tick? && DoubtedSinceContact(t, h)
    ensures Run(t, None, h).Some? && Run(t, None, h).value.status == Suspected
    ensures forall c :: c in h && IsContact(c) ==> e.now - c.now > t.failure
  {
    PeerFromHistory(t, h);
    forall c | c in h && IsContact(c) ensures e.now - c.now > t.failure {
      LastContactIsLatest(h, c);
    }
  }

  /** What can change a listed peer, and when. It dies only of silence while suspected;
      it is suspected by a failed message, or while alive by silence; it comes back to
      life by contact. It leaves the list when removed, or when dead and silent for
      more than five minutes. */
  lemma ChangesExactly(t: Timeouts, p: Peer, e: Event)
    ensures var q := After(t, Some(p), e);
            && (q == None <==>
                e.Removed? || (e.Tick? && p.status == Dead && e.now - p.lastSeen > 300_000_000_000))
            && (q.Some? && q.value.status == Dead <==>
                (p.status == Dead && !IsContact(e) && !e.Doubted? && q.Some?) ||
                (p.status == Suspected && e.Tick? && e.now - p.lastSeen > t.failure))
            && (q.Some? && q.value.status == Suspected <==>
                e.Doubted? ||
                (p.status == Alive && e.Tick? && e.now - p.lastSeen > t.suspicion) ||
                (p.status == Suspected && e.Tick? && e.now - p.lastSeen <= t.failure))
            && (q.Some? ==> q.value.lastSeen == if IsContact(e) then e.now else p.lastSeen)
  {
  }

  /** A peer that is not listed is listed by being added, or by a message of its own,
      and by nothing else. */
  lemma ListedExactly(t: Timeouts, e: Event)
    ensures After(t, None, e).Some? <==> e.Added? || e.Gossiped?
    ensures e.Added? || e.Gossiped? ==> After(t, None, e) == Some(Peer(e.now, Alive, 0.0, 0))
  {
  }

  /** The last load that the peer reported since it was listed, or 0. */
  function LastReported(t: Timeouts, h: seq<Event>): real {
    if h == [] then 0.0
    else
      var before := h[..|h| - 1];
      match h[|h| - 1]
      case Added(_) => 0.0
      case Gossiped(_, load, _) =>
        if Run(t, None, before) == None then 0.0
        else if load.Some? then load.value
        else LastReported(t, before)
      case _ => LastReported(t, before)
  }

  /** Over any history the detector's events leave alone what the peer reported. */
  lemma {:induction false} LoadIsLastReported(t: Timeouts, h: seq<Event>)
    ensures Run(t, None, h).Some? ==> Run(t, None, h).value.load == LastReported(t, h)
    decreases |h|
  {
    if h != [] {
      LoadIsLastReported(t, h[..|h| - 1]);
    }
  }

  // ---------- Timing ----------

  /** No contact and no removal. */
  predicate Silent(s: seq<Event>) {
    forall e :: e in s ==> e.Doubted? || e.Tick?
  }

  predicate TicksInOrder(s: seq<Event>) {
    forall i, j :: 0 <= i < j < |s| && s[i].Tick? && s[j].Tick? ==> s[i].now <= s[j].now
  }

  /** The detector runs at some time in (from, from + period]. */
  ghost predicate TickWithin(s: seq<Event>, from: int, period: int) {
    exists i :: 0 <= i < |s| && s[i].Tick? && from < s[i].now <= from + period
  }

  /** From start to horizon the detector never pauses for longer than period. */
  ghost predicate TicksEvery(s: seq<Event>, start: int, horizon: int, period: int) {
    forall x :: start <= x && x + period <= horizon ==> TickWithin(s, x, period)
  }

  predicate HasStatus(p: Option<Peer>, status: PeerStatus) {
    p.Some? && p.value.status == status
  }

  ghost predicate SeenDead(t: Timeouts, p: Option<Peer>, s: seq<Event>, n: int) {
    exists k :: 0 <= k <= n && k <= |s| && HasStatus(Run(t, p, s[..k]), Dead)
  }

  /** While a peer is silent its last contact stays, and once it has been suspected
      it does not come back to life. */
  lemma {:induction false} SilencePersists(t: Timeouts, p: Peer, s: seq<Event>, n: nat)
    requires Silent(s) && n <= |s|
    ensures var q := Run(t, Some(p), s[..n]);
            if q == None then SeenDead(t, Some(p), s, n) || p.status == Dead
            else q.value.lastSeen == p.lastSeen
    decreases n
  {
    if n > 0 {
      SilencePersists(t, p, s, n - 1);
      assert s[..n][..n - 1] == s[..n - 1];
      assert s[n - 1] in s;
      var q := Run(t, Some(p), s[..n - 1]);
      if q.Some? && q.value.status == Dead {
        assert SeenDead(t, Some(p), s, n);
      }
      if q == None && p.status != Dead {
        var k :| 0 <= k <= n - 1 && k <= |s| && HasStatus(Run(t, Some(p), s[..k]), Dead);
      }
    } else {
      assert s[..0] == [];
    }
  }

  lemma {:induction false} SuspicionPersists(t: Timeouts, p: Peer, s: seq<Event>, from: nat, n: nat)
    requires Silent(s) && from <= n <= |s|
    requires HasStatus(Run(t, Some(p), s[..from]), Suspected) || SeenDead(t, Some(p), s, from)
    ensures HasStatus(Run(t, Some(p), s[..n]), Suspected) || SeenDead(t, Some(p), s, n)
    decreases n
  {
    if n > from {
      SuspicionPersists(t, p, s, from, n - 1);
      assert s[..n][..n - 1] == s[..n - 1];
      assert s[n - 1] in s;
      if SeenDead(t, Some(p), s, n - 1) {
        var k :| 0 <= k <= n - 1 && k <= |s| && HasStatus(Run(t, Some(p), s[..k]), Dead);
        assert SeenDead(t, Some(p), s, n);
      } else if !HasStatus(Run(t, Some(p), s[..n]), Suspected) {
        assert HasStatus(Run(t, Some(p), s[..n]), Dead);
      }
    }
  }

  /** A run of the detector after the suspicion timeout leaves a silent peer suspected or dead. */
  lemma SuspectedByTick(t: Timeouts, p: Peer, s: seq<Event>, i: nat)
    requires Silent(s) && i < |s| && s[i].Tick? && s[i].now - p.lastSeen > t.suspicion
    requires p.status != Dead
    ensures HasStatus(Run(t, Some(p), s[..i + 1]), Suspected) || SeenDead(t, Some(p), s, i + 1)
  {
    SilencePersists(t, p, s, i);
    assert s[..i + 1][..i] == s[..i];
    var q := Run(t, Some(p), s[..i]);
    if q == None {
      var k :| 0 <= k <= i && k <= |s| && HasStatus(Run(t, Some(p), s[..k]), Dead);
      assert SeenDead(t, Some(p), s, i + 1);
    } else if q.value.status == Dead {
      assert SeenDead(t, Some(p), s, i + 1);
    } else if !HasStatus(Run(t, Some(p), s[..i + 1]), Suspected) {
      assert HasStatus(Run(t, Some(p), s[..i + 1]), Dead);
    }
  }

  /** A second run, after the failure timeout, declares it dead. */
  lemma DeadByTick(t: Timeouts, p: Peer, s: seq<Event>, a: nat, i: nat)
    requires Silent(s) && a < i < |s| && p.status != Dead
    requires s[a].Tick? && s[a].now - p.lastSeen > t.suspicion
    requires s[i].Tick? && s[i].now - p.lastSeen > t.failure
    ensures SeenDead(t, Some(p), s, i + 1)
  {
    SuspectedByTick(t, p, s, a);
    SuspicionPersists(t, p, s, a + 1, i);
    SilencePersists(t, p, s, i);
    assert s[..i + 1][..i] == s[..i];
    if SeenDead(t, Some(p), s, i) {
      var k :| 0 <= k <= i && k <= |s| && HasStatus(Run(t, Some(p), s[..k]), Dead);
      assert SeenDead(t, Some(p), s, i + 1);
    } else {
      assert HasStatus(Run(t, Some(p), s[..i + 1]), Dead);
    }
  }

  /** Completeness in time: if the detector never pauses for longer than period, a
      peer silent since its last contact is declared dead no later than

          last contact + max(failure timeout, suspicion timeout + period) + period,

      as no run of the detector takes it from alive to dead in one go. */
  lemma DeclaredInTime(t: Timeouts, p: Peer, s: seq<Event>, period: int) returns (i: nat)
    requires 0 <= t.suspicion && 0 <= t.failure && 0 < period
    requires p.status != Dead && Silent(s) && TicksInOrder(s)
    requires TicksEvery(s, p.lastSeen,
                        p.lastSeen + Max(t.failure, t.suspicion + period) + period, period)
    ensures i < |s| && s[i].Tick?
    ensures s[i].now <= p.lastSeen + Max(t.failure, t.suspicion + period) + period
    ensures SeenDead(t, Some(p), s, i + 1)
  {
    var first := p.lastSeen + t.suspicion;
    var second := p.lastSeen + Max(t.failure, t.suspicion + period);
    assert TickWithin(s, first, period) && TickWithin(s, second, period);
    var a :| 0 <= a < |s| && s[a].Tick? && first < s[a].now <= first + period;
    i :| 0 <= i < |s| && s[i].Tick? && second < s[i].now <= second + period;
    assert s[a].now < s[i].now;
    DeadByTick(t, p, s, a, i);
  }

  /** With the period no longer than the distance between the timeouts, that is
      last contact + failure timeout + period. The configured 15 s, 30 s and 5 s
      give 35 s. */
  lemma DeclaredWithinOnePeriod(t: Timeouts, p: Peer, s: seq<Event>, period: int) returns (i: nat)
    requires 0 <= t.suspicion && 0 < period <= t.failure - t.suspicion
    requires p.status != Dead && Silent(s) && TicksInOrder(s)
    requires TicksEvery(s, p.lastSeen, p.lastSeen + t.failure + period, period)
    ensures i < |s| && s[i].Tick? && s[i].now <= p.lastSeen + t.failure + period
    ensures SeenDead(t, Some(p), s, i + 1)
    ensures t == Timeouts(15 * SECOND, 30 * SECOND) && period == 5 * SECOND ==>
              s[i].now <= p.lastSeen + 35 * SECOND
  {
    i := DeclaredInTime(t, p, s, period);
  }

  // ---------- How often a peer is declared dead ----------

  function Deaths(t: Timeouts, p: Option<Peer>, s: seq<Event>): nat {
    if s == [] then 0
    else Deaths(t, p, s[..|s| - 1]) +
         (if DeclaredDead(t, Run(t, p, s[..|s| - 1]), s[|s| - 1]) then 1 else 0)
  }

  /** No contact; messages may fail, the detector runs, and the peer may be removed,
      as it is when its tasks have been handed on. */
  predicate NoContact(s: seq<Event>) {
    forall e :: e in s ==> !IsContact(e)
  }

  /** A message to the peer failed while it was dead and still listed. */
  predicate DeadDoubted(t: Timeouts, p: Option<Peer>, s: seq<Event>) {
    s != [] &&
    (DeadDoubted(t, p, s[..|s| - 1]) || (s[|s| - 1].Doubted? && HasStatus(Run(t, p, s[..|s| - 1]), Dead)))
  }

  /** And the detector ran after that and found the peer still listed. */
  predicate DoubtedThenTicked(t: Timeouts, p: Option<Peer>, s: seq<Event>) {
    s != [] &&
    (DoubtedThenTicked(t, p, s[..|s| - 1]) ||
     (s[|s| - 1].Tick? && Run(t, p, s[..|s| - 1]).Some? && DeadDoubted(t, p, s[..|s| - 1])))
  }

  /** The detector ran after the failure timeout. */
  predicate Overdue(t: Timeouts, p: Peer, s: seq<Event>) {
    exists e :: e in s && e.Tick? && e.now - p.lastSeen > t.failure
  }

  lemma StaysOverdue(t: Timeouts, p: Peer, s: seq<Event>)
    requires s != [] && TicksInOrder(s) && Overdue(t, p, s[..|s| - 1])
    ensures Overdue(t, p, s)
    ensures s[|s| - 1].Tick? ==> s[|s| - 1].now - p.lastSeen > t.failure
  {
    var before := s[..|s| - 1];
    var e :| e in before && e.Tick? && e.now - p.lastSeen > t.failure;
    var k :| 0 <= k < |before| && before[k] == e;
    assert s[k] == e;
  }

  /** What the number of deaths says about the peer's state. */
  ghost predicate DeathsMatch(t: Timeouts, p: Peer, s: seq<Event>) {
    var q, deaths := Run(t, Some(p), s), Deaths(t, Some(p), s);
    var doubted := DeadDoubted(t, Some(p), s);
    && (q.Some? ==> q.value.lastSeen == p.lastSeen)
    && (deaths == 0 ==> !doubted && (q.Some? ==> q.value.status != Dead))
    && (deaths >= 1 ==> Overdue(t, p, s))
    && (deaths == 1 && q.Some? ==> q.value.status == if doubted then Suspected else Dead)
    && (deaths <= 1 <==> !DoubtedThenTicked(t, Some(p), s))
  }

  lemma TickMatches(t: Timeouts, p: Peer, before: seq<Event>, now: int)
    requires TicksInOrder(before + [Tick(now)]) && DeathsMatch(t, p, before)
    ensures DeathsMatch(t, p, before + [Tick(now)])
  {
    var s := before + [Tick(now)];
    assert s[..|s| - 1] == before;
    DeathsOneMore(t, Some(p), before, Tick(now));
    if Overdue(t, p, before) {
      StaysOverdue(t, p, s);
    } else {
      assert Tick(now) in s;
    }
  }

  lemma OtherMatches(t: Timeouts, p: Peer, before: seq<Event>, e: Event)
    requires e.Doubted? || e.Removed?
    requires TicksInOrder(before + [e]) && DeathsMatch(t, p, before)
    ensures DeathsMatch(t, p, before + [e])
  {
    var s := before + [e];
    assert s[..|s| - 1] == before;
    DeathsOneMore(t, Some(p), before, e);
    if Overdue(t, p, before) {
      StaysOverdue(t, p, s);
    }
  }

  lemma {:induction false} DeathsFollowDoubts(t: Timeouts, p: Peer, s: seq<Event>)
    requires p.status != Dead && NoContact(s) && TicksInOrder(s)
    ensures DeathsMatch(t, p, s)
    decreases |s|
  {
    if s != [] {
      var before, last := s[..|s| - 1], s[|s| - 1];
      assert last in s && forall e :: e in before ==> e in s;
      assert s == before + [last];
      DeathsFollowDoubts(t, p, before);
      if last.Tick? {
        TickMatches(t, p, before, last.now);
      } else {
        OtherMatches(t, p, before, last);
      }
    }
  }

  /** Between two contacts a peer is declared dead at most once if and only if no
      message to it fails while it is dead and still listed with the detector running
      afterwards, before the peer is removed. */
  lemma {:induction false} OneDeathExactly(t: Timeouts, p: Peer, s: seq<Event>)
    requires p.status != Dead && NoContact(s) && TicksInOrder(s)
    ensures Deaths(t, Some(p), s) <= 1 <==> !DoubtedThenTicked(t, Some(p), s)
  {
    DeathsFollowDoubts(t, p, s);
  }

  /** From whatever start, without such a doubt there is at most one death. */
  lemma {:induction false} OneDeathWithoutDoubts(t: Timeouts, p: Option<Peer>, s: seq<Event>)
    requires NoContact(s) && !DeadDoubted(t, p, s)
    ensures Deaths(t, p, s) <= 1
    ensures Run(t, p, s).Some? && Run(t, p, s).value.status != Dead ==> Deaths(t, p, s) == 0
    decreases |s|
  {
    if s != [] {
      assert s[|s| - 1] in s;
      assert forall e :: e in s[..|s| - 1] ==> e in s;
      OneDeathWithoutDoubts(t, p, s[..|s| - 1]);
    }
  }

  /** After any history that leaves the peer dead and listed: one more failed message
      and one more run of the detector declare it dead again. */
  lemma DoubtAddsDeath(t: Timeouts, h: seq<Event>, now: int)
    requires HasStatus(Run(t, None, h), Dead) && now - Run(t, None, h).value.lastSeen > t.failure
    ensures Deaths(t, None, h + [Doubted] + [Tick(now)]) == Deaths(t, None, h) + 1
  {
    DeathsOneMore(t, None, h, Doubted);
    DeathsOneMore(t, None, h + [Doubted], Tick(now));
  }

  lemma AddedDies(t: Timeouts, added: int, now: int)
    requires t.failure < now - added
    ensures var h := [Added(added), Doubted] + [Tick(now)];
            Run(t, None, h) == Some(Peer(added, Dead, 0.0, 0)) && Deaths(t, None, h) == 1
  {
    DeathsOneMore(t, None, [], Added(added));
    assert [] + [Added(added)] == [Added(added)];
    DeathsOneMore(t, None, [Added(added)], Doubted);
    assert [Added(added)] + [Doubted] == [Added(added), Doubted];
    DeathsOneMore(t, None, [Added(added), Doubted], Tick(now));
  }

  /** It does happen, to a peer that was added and never heard of again: a message
      fails, it is declared dead, another message fails while it is still listed, and
      the next run of the detector declares it dead again. */
  lemma DoubtRepeatsDeath(t: Timeouts, added: int, first: int, second: int)
    requires t.failure < first - added && first <= second
    ensures Deaths(t, None, [Added(added), Doubted] + [Tick(first)] + [Doubted] + [Tick(second)]) == 2
  {
    AddedDies(t, added, first);
    DoubtAddsDeath(t, [Added(added), Doubted] + [Tick(first)], second);
  }

  lemma DeathsOneMore(t: Timeouts, p: Option<Peer>, s: seq<Event>, e: Event)
    ensures Run(t, p, s + [e]) == After(t, Run(t, p, s), e)
    ensures Deaths(t, p, s + [e]) == Deaths(t, p, s) + (if DeclaredDead(t, Run(t, p, s), e) then 1 else 0)
  {
    assert (s + [e])[..|s|] == s;
  }
}
