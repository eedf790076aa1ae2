/** Published cluster maps over every run of the cluster. */
module SmapRuns {
  import opened Smaps

  /** The maps that the nodes publish, and all maps ever published. */
  datatype Net = Net(published: map<NodeId, Smap>, ever: set<Smap>)

  /** A step of one node: a hook that goes through, a map of another node that it takes, or a step
      that fails. */
  datatype Event = Hook(at: NodeId, h: Smaps.Hook) | Sync(at: NodeId, incoming: Smap) | Fail(at: NodeId)

  ghost predicate Steps(s: Net, e: Event, t: Net) {
    && e.at in s.published && e.at in t.published
    && t.published == s.published[e.at := t.published[e.at]]
    && t.ever == s.ever + {t.published[e.at]}
    && match e
       case Hook(at, h) => Hooked(at, h, s.published[at], t.published[at])
       case Sync(at, incoming) => incoming in s.ever && t.published[at] == Synced(s.published[at], incoming)
       case Fail(at) => t.published[at] == s.published[at]
  }

  ghost predicate IsRun(trace: seq<Net>, events: seq<Event>) {
    && |trace| == |events| + 1
    && (forall m :: m in trace[0].ever ==> Safe(m))
    && (forall n :: n in trace[0].published ==> trace[0].published[n] in trace[0].ever)
    && forall i :: 0 <= i < |events| ==> Steps(trace[i], events[i], trace[i + 1])
  }

  /** Election results name an old primary other than the new one. */
  ghost predicate ProperResults(events: seq<Event>) {
    forall i :: 0 <= i < |events| && events[i].Hook? && events[i].h.Voted? ==> events[i].h.nid != events[i].h.sid
  }

  ghost predicate Inv(s: Net) {
    (forall m :: m in s.ever ==> Safe(m)) && (forall n :: n in s.published ==> s.published[n] in s.ever)
  }

  lemma StepInv(s: Net, e: Event, t: Net)
    requires Inv(s) && Steps(s, e, t)
    requires e.Hook? && e.h.Voted? ==> e.h.nid != e.h.sid
    ensures Inv(t) && t.published.Keys == s.published.Keys
    ensures forall n :: n in s.published ==> t.published[n].version >= s.published[n].version
  {
    if e.Hook? {
      HookKeeps(e.at, e.h, s.published[e.at], t.published[e.at]);
    }
  }

  /** In every run, no ID is both proxy and target in any published map, its primary is one of its
      proxies, and the version that a node publishes never goes down. */
  lemma {:induction false} PublishedMaps(trace: seq<Net>, events: seq<Event>, i: nat, j: nat, n: NodeId)
    requires IsRun(trace, events) && ProperResults(events) && i <= j < |trace| && n in trace[i].published
    ensures n in trace[j].published && Safe(trace[j].published[n])
    ensures trace[j].published[n].version >= trace[i].published[n].version
  {
    RunInv(trace, events, j);
    if i < j {
      PublishedMaps(trace, events, i, j - 1, n);
      RunInv(trace, events, j - 1);
      StepInv(trace[j - 1], events[j - 1], trace[j]);
    }
  }

  lemma {:induction false} RunInv(trace: seq<Net>, events: seq<Event>, i: nat)
    requires IsRun(trace, events) && ProperResults(events) && i < |trace|
    ensures Inv(trace[i])
  {
    if i > 0 {
      RunInv(trace, events, i - 1);
      StepInv(trace[i - 1], events[i - 1], trace[i]);
    }
  }

  /** The step is an election result that names one node as old and new primary. */
  ghost predicate Improper(e: Event) {
    e.Hook? && e.h.Voted? && e.h.nid == e.h.sid && e.h.sid != ""
  }

  lemma StepSafeIff(s: Net, e: Event, t: Net)
    requires Inv(s) && Steps(s, e, t)
    ensures Inv(t) <==> !Improper(e)
  {
    if e.Hook? {
      HookKeeps(e.at, e.h, s.published[e.at], t.published[e.at]);
    }
    assert t.published[e.at] in t.ever;
  }

  /** In every run, all maps ever published are safe if and only if no election result is improper. */
  lemma AllSafeIff(trace: seq<Net>, events: seq<Event>)
    requires IsRun(trace, events)
    ensures (forall i :: 0 <= i < |trace| ==> Inv(trace[i])) <==> forall i :: 0 <= i < |events| ==> !Improper(events[i])
  {
    if forall i :: 0 <= i < |events| ==> !Improper(events[i]) {
      forall i | 0 <= i < |trace| ensures Inv(trace[i]) {
        ProperInv(trace, events, i);
      }
    } else {
      var i :| 0 <= i < |events| && Improper(events[i]);
      if Inv(trace[i]) {
        StepSafeIff(trace[i], events[i], trace[i + 1]);
      }
    }
  }

  lemma {:induction false} ProperInv(trace: seq<Net>, events: seq<Event>, i: nat)
    requires IsRun(trace, events) && i < |trace| && forall j :: 0 <= j < i ==> !Improper(events[j])
    ensures Inv(trace[i])
  {
    if i > 0 {
      ProperInv(trace, events, i - 1);
      StepSafeIff(trace[i - 1], events[i - 1], trace[i]);
    }
  }

  /** A step at the node that may leave the version as it is: an election result. */
  ghost predicate VotedAt(e: Event, n: NodeId) {
    e.Hook? && e.at == n && e.h.Voted?
  }

  lemma StepSameVersion(s: Net, e: Event, t: Net, n: NodeId)
    requires Inv(s) && Steps(s, e, t) && n in s.published && !VotedAt(e, n)
    ensures n in t.published && t.published[n].version >= s.published[n].version
    ensures t.published[n].version == s.published[n].version ==> t.published[n] == s.published[n]
  {
    if e.Hook? && e.at == n {
      HookKeeps(n, e.h, s.published[n], t.published[n]);
    }
  }

  /** In every run, a version that a node publishes names one map, as long as no election result comes in
      between: a map that it takes from another node is newer than its own. */
  lemma {:induction false} SameVersionSameMap(trace: seq<Net>, events: seq<Event>, i: nat, j: nat, n: NodeId)
    requires IsRun(trace, events) && ProperResults(events) && i <= j < |trace| && n in trace[i].published
    requires forall k :: i <= k < j ==> !VotedAt(events[k], n)
    ensures n in trace[j].published && trace[j].published[n].version >= trace[i].published[n].version
    ensures trace[j].published[n].version == trace[i].published[n].version ==> trace[j].published[n] == trace[i].published[n]
  {
    if i < j {
      SameVersionSameMap(trace, events, i, j - 1, n);
      RunInv(trace, events, j - 1);
      StepSameVersion(trace[j - 1], events[j - 1], trace[j], n);
    }
  }

  /** An election result can change the map and not its version: the old primary is no longer there. */
  lemma VotedSameVersion(self: NodeId, m: Smap, nid: NodeId, sid: NodeId)
    requires Safe(m) && nid in m.pmap && nid != m.primary && sid !in m.pmap
    ensures var n := m.(primary := nid);
            Hooked(self, Voted(nid, sid), m, n) && Safe(n) && n != m && n.version == m.version
  {
  }

  /** An election result whose old and new primary are the same takes the primary out of the map. */
  lemma ImproperResult(self: NodeId, m: Smap, id: NodeId)
    requires Safe(m) && id in m.pmap && id != ""
    ensures var n := Del(m, id).(primary := id);
            Hooked(self, Voted(id, id), m, n) && !Safe(n) && forall x :: !IsPrimary(n, x)
  {
  }
}
