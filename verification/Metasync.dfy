/** Bookkeeping of the metasyncer: which node has acknowledged which revision (ais/metasync.go). */
module Metasync {
  import opened Common

  type NodeId = string
  type Tag = string

  const BMD_TAG: Tag := "BMD"

  /** A revision, and the current one of the same kind at the time it is sent (if there is one).
      `freed`: the buffer of the revision is gone, that of the current one is not. */
  datatype Pair = Pair(tag: Tag, version: nat, jit: Option<nat>, freed: bool)

  /** One reply; `member`: at that time the node is in the cluster map and not in maintenance. */
  datatype Reply = Reply(node: NodeId, outcome: Outcome, member: bool)

  datatype Outcome = Ok | Retriable | Failed

  /** One round of retries: no longer primary before it, or replies, after which the primary may
      have been told to stop. */
  datatype Retry = LostPrimary | Retry(replies: seq<Reply>, stop: bool)

  /** Version by node and tag. */
  type Records = map<NodeId, map<Tag, nat>>

  type Acks = set<(NodeId, Tag, nat)>

  /** The version to send: the current one if newer, except that a BMD that is just one behind is
      sent as is unless its buffer is gone. */
  function UseJIT(p: Pair): (v: nat)
    ensures v >= p.version && (v == p.version || p.jit == Some(v))
    ensures v == p.version <==>
              p.jit.None? || p.jit.value <= p.version || (p.tag == BMD_TAG && p.jit.value == p.version + 1 && !p.freed)
  {
    if p.jit.Some? && p.jit.value > p.version then
      if p.tag == BMD_TAG then
        if p.jit.value > p.version + 1 || p.freed then p.jit.value else p.version
      else p.jit.value
    else p.version
  }

  /** Versions of the pairs, by tag; a later pair replaces an earlier one. */
  function Versions(pairs: seq<Pair>): map<Tag, nat> {
    if pairs == [] then map[]
    else Versions(pairs[..|pairs| - 1])[pairs[|pairs| - 1].tag := pairs[|pairs| - 1].version]
  }

  /** What goes on the wire. */
  function Payload(pairs: seq<Pair>): map<Tag, nat> {
    if pairs == [] then map[]
    else Payload(pairs[..|pairs| - 1])[pairs[|pairs| - 1].tag := UseJIT(pairs[|pairs| - 1])]
  }

  lemma {:induction false} PayloadIsNewer(pairs: seq<Pair>)
    ensures Payload(pairs).Keys == Versions(pairs).Keys
    ensures forall t :: t in Versions(pairs) ==> Versions(pairs)[t] <= Payload(pairs)[t]
  {
    if pairs != [] {
      PayloadIsNewer(pairs[..|pairs| - 1]);
    }
  }

  /** The last pair with a tag decides: its own version is the one that gets recorded, and what is sent in
      its place goes on the wire. */
  lemma {:induction false} LastPairCounts(pairs: seq<Pair>, i: nat)
    requires i < |pairs| && forall j :: i < j < |pairs| ==> pairs[j].tag != pairs[i].tag
    ensures pairs[i].tag in Versions(pairs) && Versions(pairs)[pairs[i].tag] == pairs[i].version
    ensures pairs[i].tag in Payload(pairs) && Payload(pairs)[pairs[i].tag] == UseJIT(pairs[i])
    decreases |pairs|
  {
    if i < |pairs| - 1 {
      LastPairCounts(pairs[..|pairs| - 1], i);
    }
  }

  // ---------------------------------------------------------------- records and acknowledgments

  ghost predicate AckedAtLeast(acks: Acks, n: NodeId, t: Tag, v: nat) {
    exists w: nat :: (n, t, w) in acks && v <= w
  }

  /** No node is recorded at a version newer than one it has acknowledged. */
  ghost predicate RecordsOk(nr: Records, acks: Acks) {
    forall n, t :: n in nr && t in nr[n] ==> AckedAtLeast(acks, n, t, nr[n][t])
  }

  function Record(nr: Records, n: NodeId, member: bool, versions: map<Tag, nat>): Records {
    if !member then nr - {n}
    else nr[n := (if n in nr then nr[n] else map[]) + versions]
  }

  /** What a node acknowledges when it accepts the payload. */
  ghost function AcksOf(n: NodeId, payload: map<Tag, nat>): Acks {
    set t | t in payload :: (n, t, payload[t])
  }

  /** What all nodes that accept acknowledge. */
  ghost function AcksFrom(replies: seq<Reply>, payload: map<Tag, nat>): Acks {
    set r, t | r in replies && r.outcome.Ok? && t in payload :: (r.node, t, payload[t])
  }

  lemma AcksConcat(a: seq<Reply>, b: seq<Reply>, payload: map<Tag, nat>)
    ensures AcksFrom(a + b, payload) == AcksFrom(a, payload) + AcksFrom(b, payload)
  {
  }

  lemma AcksNext(replies: seq<Reply>, i: nat, payload: map<Tag, nat>)
    requires i < |replies|
    ensures AcksFrom(replies[..i + 1], payload) == AcksFrom(replies[..i], payload) + if replies[i].outcome.Ok? then AcksOf(replies[i].node, payload) else {}
  {
    assert replies[..i + 1] == replies[..i] + [replies[i]];
    AcksConcat(replies[..i], [replies[i]], payload);
    assert AcksFrom([replies[i]], payload) == if replies[i].outcome.Ok? then AcksOf(replies[i].node, payload) else {};
  }

  /** Recording a node keeps the records right if and only if the node has acknowledged the versions
      (or is no longer a member). */
  lemma RecordKeepsIff(nr: Records, acks: Acks, n: NodeId, member: bool, versions: map<Tag, nat>)
    requires RecordsOk(nr, acks)
    ensures RecordsOk(Record(nr, n, member, versions), acks) <==>
              (member ==> forall t :: t in versions ==> AckedAtLeast(acks, n, t, versions[t]))
  {
    var after := Record(nr, n, member, versions);
    if member && RecordsOk(after, acks) {
      forall t | t in versions ensures AckedAtLeast(acks, n, t, versions[t]) {
        assert after[n][t] == versions[t];
      }
    }
  }

  lemma RecordsOkMore(nr: Records, acks: Acks, more: Acks)
    requires RecordsOk(nr, acks) && acks <= more
    ensures RecordsOk(nr, more)
  {
    forall n, t | n in nr && t in nr[n] ensures AckedAtLeast(more, n, t, nr[n][t]) {
      assert AckedAtLeast(acks, n, t, nr[n][t]);
    }
  }

  lemma AckedPayload(acks: Acks, n: NodeId, pairs: seq<Pair>)
    requires AcksOf(n, Payload(pairs)) <= acks
    ensures forall t :: t in Versions(pairs) ==> AckedAtLeast(acks, n, t, Versions(pairs)[t])
  {
    PayloadIsNewer(pairs);
    forall t | t in Versions(pairs) ensures AckedAtLeast(acks, n, t, Versions(pairs)[t]) {
      assert (n, t, Payload(pairs)[t]) in AcksOf(n, Payload(pairs));
    }
  }

  /** Recording the versions of the pairs of a node that accepted the payload. */
  lemma RecordAfterAck(nr: Records, acks: Acks, n: NodeId, member: bool, pairs: seq<Pair>)
    requires RecordsOk(nr, acks)
    ensures RecordsOk(Record(nr, n, member, Versions(pairs)), acks + AcksOf(n, Payload(pairs)))
  {
    var more := acks + AcksOf(n, Payload(pairs));
    RecordsOkMore(nr, acks, more);
    AckedPayload(more, n, pairs);
    RecordKeepsIff(nr, more, n, member, Versions(pairs));
  }

  /** The records after a sequence of replies. */
  function RecordAll(nr: Records, replies: seq<Reply>, versions: map<Tag, nat>): Records {
    if replies == [] then nr
    else
      var before, r := RecordAll(nr, replies[..|replies| - 1], versions), replies[|replies| - 1];
      if r.outcome.Ok? then Record(before, r.node, r.member, versions) else before
  }

  lemma {:induction false} RecordAllConcat(nr: Records, a: seq<Reply>, b: seq<Reply>, versions: map<Tag, nat>)
    ensures RecordAll(nr, a + b, versions) == RecordAll(RecordAll(nr, a, versions), b, versions)
  {
    if b == [] {
      assert a + b == a;
    } else {
      var n := |b| - 1;
      assert (a + b)[..|a + b| - 1] == a + b[..n];
      RecordAllConcat(nr, a, b[..n], versions);
    }
  }

  ghost predicate Accepts(replies: seq<Reply>, n: NodeId) {
    exists i :: 0 <= i < |replies| && replies[i].node == n && replies[i].outcome.Ok?
  }

  /** Exactly the nodes that accept are recorded, at the versions of the pairs. */
  lemma {:induction false} RecordAllIs(nr: Records, replies: seq<Reply>, versions: map<Tag, nat>, n: NodeId)
    requires forall r :: r in replies && r.node == n ==> r.member
    ensures var after := RecordAll(nr, replies, versions);
            var was := if n in nr then nr[n] else map[];
            if Accepts(replies, n) then n in after && after[n] == was + versions
            else (n in after <==> n in nr) && (n in nr ==> after[n] == nr[n])
  {
    if replies != [] {
      var k := |replies| - 1;
      RecordAllIs(nr, replies[..k], versions, n);
      var last := replies[k];
      assert last in replies;
      if last.outcome.Ok? && last.node == n {
        assert Accepts(replies, n);
      } else {
        assert Accepts(replies, n) <==> Accepts(replies[..k], n);
      }
    }
  }

  /** The last time that a node accepts decides whether it is recorded: if and only if it is a member then. */
  lemma {:induction false} LastReplyDecides(nr: Records, replies: seq<Reply>, versions: map<Tag, nat>, i: nat)
    requires i < |replies| && replies[i].outcome.Ok?
    requires forall j :: i < j < |replies| && replies[j].node == replies[i].node ==> !replies[j].outcome.Ok?
    ensures replies[i].node in RecordAll(nr, replies, versions) <==> replies[i].member
    decreases |replies|
  {
    if i < |replies| - 1 {
      LastReplyDecides(nr, replies[..|replies| - 1], versions, i);
    }
  }

  /** Replies keep the records right if and only if every node that accepted has acknowledged the
      versions. The replies to a PUT are such acknowledgments; those to a notification are not. */
  lemma RecordAllKeepsIff(nr: Records, acks: Acks, replies: seq<Reply>, versions: map<Tag, nat>)
    requires RecordsOk(nr, acks) && forall r :: r in replies ==> r.member
    ensures RecordsOk(RecordAll(nr, replies, versions), acks) <==>
              forall n, t :: Accepts(replies, n) && t in versions ==> AckedAtLeast(acks, n, t, versions[t])
  {
    var after := RecordAll(nr, replies, versions);
    if RecordsOk(after, acks) {
      forall n, t | Accepts(replies, n) && t in versions ensures AckedAtLeast(acks, n, t, versions[t]) {
        RecordAllIs(nr, replies, versions, n);
        assert after[n][t] == versions[t];
      }
    } else {
      var n, t :| n in after && t in after[n] && !AckedAtLeast(acks, n, t, after[n][t]);
      RecordAllIs(nr, replies, versions, n);
      assert Accepts(replies, n) && t in versions;
    }
  }

  // ---------------------------------------------------------------- pending nodes

  predicate InSync(nr: Records, last: map<Tag, nat>, n: NodeId) {
    n in nr && forall t :: t in last ==> t in nr[n] && nr[n][t] >= last[t]
  }

  /** A node that is not pending has acknowledged every last-synced revision, or a newer one. */
  lemma InSyncHasAcked(nr: Records, acks: Acks, last: map<Tag, nat>, n: NodeId, t: Tag)
    requires RecordsOk(nr, acks) && InSync(nr, last, n) && t in last
    ensures AckedAtLeast(acks, n, t, last[t])
  {
    assert AckedAtLeast(acks, n, t, nr[n][t]);
  }

  function Restrict(nr: Records, members: set<NodeId>): Records {
    map n | n in nr && n in members :: nr[n]
  }

  ghost function Retried(retries: seq<Retry>): seq<Reply> {
    if retries == [] then []
    else Retried(retries[..|retries| - 1]) + (var r := retries[|retries| - 1]; if r.Retry? then r.replies else [])
  }

  /** Replies that get recorded: the first ones unless it is a notification, and all retries. */
  ghost function Log(sync: bool, replies: seq<Reply>, retries: seq<Retry>): seq<Reply> {
    (if sync then replies else []) + Retried(retries)
  }

  ghost function AcceptedIn(replies: seq<Reply>): set<NodeId> {
    set r | r in replies && r.outcome.Ok? :: r.node
  }

  /** Who is left of those that refused after some rounds: exactly those that have accepted in none. */
  ghost function LeftAfter(retries: seq<Retry>, refused: set<NodeId>): set<NodeId> {
    refused - AcceptedIn(Retried(retries))
  }

  /** There is a next round after `k`: fewer than four so far, somebody is left, and the primary was not
      told to stop. */
  ghost predicate GoesOn(retries: seq<Retry>, refused: set<NodeId>, k: nat)
    requires k <= |retries|
  {
    k < 4 && LeftAfter(retries[..k], refused) != {} && (k > 0 ==> retries[k - 1].Retry? && !retries[k - 1].stop)
  }

  /** At least `k` rounds take place. */
  ghost predicate Gone(retries: seq<Retry>, refused: set<NodeId>, k: nat) {
    k <= |retries| && forall j :: 0 <= j < k ==> GoesOn(retries, refused, j) && retries[j].Retry?
  }

  lemma GoneNext(retries: seq<Retry>, refused: set<NodeId>, i: nat)
    requires Gone(retries, refused, i) && i < 4 && i < |retries| && retries[i].Retry?
    requires LeftAfter(retries[..i], refused) != {} && (i > 0 ==> !retries[i - 1].stop)
    ensures Gone(retries, refused, i + 1) && Retried(retries[..i + 1]) == Retried(retries[..i]) + retries[i].replies
    ensures LeftAfter(retries[..i + 1], refused) == LeftAfter(retries[..i], refused) - AcceptedIn(retries[i].replies)
  {
    assert retries[..i + 1][..i] == retries[..i];
  }

  /** Exactly `k` rounds take place; `lost`: there would be another one, but the node is no longer
      primary. */
  ghost predicate Rounds(retries: seq<Retry>, refused: set<NodeId>, k: nat, lost: bool) {
    && Gone(retries, refused, k)
    && (k < |retries| ==> (GoesOn(retries, refused, k) <==> lost) && (lost ==> retries[k].LostPrimary?))
    && (k == |retries| ==> !lost)
  }

  /** What a sync goes through, and who is left in the end. */
  ghost predicate IsLog(log: seq<Reply>, sync: bool, replies: seq<Reply>, retries: seq<Retry>, lost: bool, left: set<NodeId>) {
    exists k: nat :: Rounds(retries, Retriables(replies), k, lost) && log == Log(sync, replies, retries[..k])
                     && left == LeftAfter(retries[..k], Retriables(replies))
  }

  /** Number of nodes that failed for good at once. */
  function Failures(replies: seq<Reply>): nat {
    if replies == [] then 0
    else Failures(replies[..|replies| - 1]) + if replies[|replies| - 1].outcome.Failed? then 1 else 0
  }

  /** Nodes to ask again. */
  function Retriables(replies: seq<Reply>): set<NodeId> {
    if replies == [] then {}
    else Retriables(replies[..|replies| - 1]) + if replies[|replies| - 1].outcome.Retriable? then {replies[|replies| - 1].node} else {}
  }

  /** Number of nodes that did not accept. */
  function Refusals(replies: seq<Reply>): nat {
    if replies == [] then 0
    else Refusals(replies[..|replies| - 1]) + if replies[|replies| - 1].outcome.Ok? then 0 else 1
  }

  /** Records after replies and, unless the primary was lost, after members that have left were
      forgotten. */
  function Recorded(nr: Records, log: seq<Reply>, versions: map<Tag, nat>, lost: bool, members: set<NodeId>): Records {
    if lost then RecordAll(nr, log, versions) else Restrict(RecordAll(nr, log, versions), members)
  }

  /** The nodes that accepted, and are still recorded, have acknowledged the versions. */
  ghost predicate AllAcked(acks: Acks, log: seq<Reply>, versions: map<Tag, nat>, lost: bool, members: set<NodeId>) {
    forall n, t :: Accepts(log, n) && (lost || n in members) && t in versions ==> AckedAtLeast(acks, n, t, versions[t])
  }

  lemma RecordedKeepsIff(nr: Records, acks: Acks, log: seq<Reply>, versions: map<Tag, nat>, lost: bool, members: set<NodeId>)
    requires RecordsOk(nr, acks) && forall r :: r in log ==> r.member
    ensures RecordsOk(Recorded(nr, log, versions, lost, members), acks) <==> AllAcked(acks, log, versions, lost, members)
  {
    var after := Recorded(nr, log, versions, lost, members);
    if RecordsOk(after, acks) {
      forall n, t | Accepts(log, n) && (lost || n in members) && t in versions ensures AckedAtLeast(acks, n, t, versions[t]) {
        RecordAllIs(nr, log, versions, n);
        assert after[n][t] == versions[t];
      }
    } else {
      var n, t :| n in after && t in after[n] && !AckedAtLeast(acks, n, t, after[n][t]);
      RecordAllIs(nr, log, versions, n);
      assert Accepts(log, n) && t in versions;
    }
  }

  // ---------------------------------------------------------------- what the counts mean

  ghost predicate OnePerNode(replies: seq<Reply>) {
    forall i, j :: 0 <= i < j < |replies| ==> replies[i].node != replies[j].node
  }

  ghost function Having(replies: seq<Reply>, o: Outcome): set<NodeId> {
    set r | r in replies && r.outcome == o :: r.node
  }

  lemma HavingNext(replies: seq<Reply>, o: Outcome)
    requires replies != []
    ensures var last := replies[|replies| - 1];
            Having(replies, o) == Having(replies[..|replies| - 1], o) + if last.outcome == o then {last.node} else {}
  {
    var n := |replies| - 1;
    assert replies == replies[..n] + [replies[n]];
  }

  lemma {:induction false} CountsAre(replies: seq<Reply>)
    requires OnePerNode(replies)
    ensures Failures(replies) == |Having(replies, Failed)| && Retriables(replies) == Having(replies, Retriable)
    ensures Refusals(replies) == |Having(replies, Failed)| + |Having(replies, Retriable)|
  {
    if replies != [] {
      var n := |replies| - 1;
      CountsAre(replies[..n]);
      HavingNext(replies, Failed);
      HavingNext(replies, Retriable);
      forall r | r in replies[..n] ensures r.node != replies[n].node { }
      assert replies[n].node !in Having(replies[..n], Failed) && replies[n].node !in Having(replies[..n], Retriable);
    }
  }

  /** If every node replies once to the first request, and only those that are asked again reply again, the
      number of failures is the number of nodes that have never accepted. */
  lemma FailuresAreNodes(replies: seq<Reply>, again: seq<Reply>)
    requires OnePerNode(replies) && forall r :: r in again ==> r.node in Retriables(replies)
    ensures Failures(replies) + |Retriables(replies) - AcceptedIn(again)| ==
            |(set r | r in replies :: r.node) - AcceptedIn(replies + again)|
  {
    CountsAre(replies);
    var f, r, a := Having(replies, Failed), Having(replies, Retriable), AcceptedIn(again);
    assert f !! r by { SameReply(replies); }
    NeverAccepted(replies, again);
    assert |f + (r - a)| == |f| + |r - a|;
  }

  lemma SameReply(replies: seq<Reply>)
    requires OnePerNode(replies)
    ensures forall x, y :: x in replies && y in replies && x.node == y.node ==> x == y
  {
    forall x, y | x in replies && y in replies && x.node == y.node ensures x == y {
      var i :| 0 <= i < |replies| && replies[i] == x;
      var j :| 0 <= j < |replies| && replies[j] == y;
    }
  }

  lemma NeverAccepted(replies: seq<Reply>, again: seq<Reply>)
    requires OnePerNode(replies) && forall r :: r in again ==> r.node in Having(replies, Retriable)
    ensures (set r | r in replies :: r.node) - AcceptedIn(replies + again) ==
            Having(replies, Failed) + (Having(replies, Retriable) - AcceptedIn(again))
  {
    SameReply(replies);
    var nodes := set r | r in replies :: r.node;
    forall n ensures n in nodes - AcceptedIn(replies + again) <==>
                     n in Having(replies, Failed) + (Having(replies, Retriable) - AcceptedIn(again)) {
      if n in nodes {
        var x :| x in replies && x.node == n;
        assert n in AcceptedIn(replies + again) <==> x.outcome.Ok? || n in AcceptedIn(again);
      }
    }
  }

  /** A node that has accepted the pairs is in sync with all revisions last sent if and only if it was with
      those of other kinds, and no newer revision was sent in place of one of the pairs: the version that
      is recorded is that of the pair. */
  lemma AcceptedInSyncIff(nr: Records, last: map<Tag, nat>, replies: seq<Reply>, pairs: seq<Pair>, n: NodeId)
    requires Accepts(replies, n) && forall r :: r in replies && r.node == n ==> r.member
    ensures InSync(RecordAll(nr, replies, Versions(pairs)), last + Payload(pairs), n) <==>
              && (forall t :: t in last && t !in Versions(pairs) ==> n in nr && t in nr[n] && nr[n][t] >= last[t])
              && Payload(pairs) == Versions(pairs)
  {
    RecordAllIs(nr, replies, Versions(pairs), n);
    PayloadIsNewer(pairs);
    var after := RecordAll(nr, replies, Versions(pairs));
    var all := last + Payload(pairs);
    if InSync(after, all, n) {
      forall t | t in Versions(pairs) ensures Payload(pairs)[t] == Versions(pairs)[t] {
        assert t in all && all[t] == Payload(pairs)[t] && after[n][t] == Versions(pairs)[t];
      }
      forall t | t in last && t !in Versions(pairs) ensures n in nr && t in nr[n] && nr[n][t] >= last[t] {
        assert t in all && all[t] == last[t];
      }
    }
  }

  /** A notification that nobody refuses records nothing. */
  lemma NothingRecorded(nr: Records, replies: seq<Reply>, retries: seq<Retry>, k: nat, lost: bool, versions: map<Tag, nat>, members: set<NodeId>)
    requires Rounds(retries, Retriables(replies), k, lost)
    ensures Retriables(replies) == {} ==> Recorded(nr, Log(false, replies, retries[..k]), versions, lost, members) == Restrict(nr, members)
  {
    if Retriables(replies) == {} {
      assert k > 0 ==> GoesOn(retries, Retriables(replies), 0);
      assert Log(false, replies, retries[..k]) == [];
    }
  }

  /** What a notification records. */
  lemma NotifyRecords(nr: Records, acks: Acks, replies: seq<Reply>, retries: seq<Retry>, k: nat, lost: bool, versions: map<Tag, nat>, members: set<NodeId>)
    requires Rounds(retries, Retriables(replies), k, lost)
    ensures var log := Log(false, replies, retries[..k]);
            var after := Recorded(nr, log, versions, lost, members);
            && (Retriables(replies) == {} ==> after == Restrict(nr, members))
            && (RecordsOk(nr, acks) && (forall r :: r in log ==> r.member) ==>
                  (RecordsOk(after, acks) <==> AllAcked(acks, log, versions, lost, members)))
  {
    var log := Log(false, replies, retries[..k]);
    NothingRecorded(nr, replies, retries, k, lost, versions, members);
    if RecordsOk(nr, acks) && forall r :: r in log ==> r.member {
      RecordedKeepsIff(nr, acks, log, versions, lost, members);
    }
  }

  class Metasyncer {
    var nodesRevs: Records
    var lastSynced: map<Tag, nat>
    ghost var acks: Acks  // replies to PUT requests: what the nodes have applied

    constructor ()
      ensures nodesRevs == map[] && lastSynced == map[] && acks == {}
    {
      nodesRevs, lastSynced, acks := map[], map[], {};
    }

    ghost predicate Valid()
      reads this
    {
      RecordsOk(nodesRevs, acks)
    }

    method BuildPayload(pairs: seq<Pair>) returns (payload: map<Tag, nat>)
      modifies this`lastSynced
      ensures payload == Payload(pairs) && lastSynced == old(lastSynced) + payload
    {
      payload := map[];
      for i := 0 to |pairs|
        invariant payload == Payload(pairs[..i]) && lastSynced == old(lastSynced) + payload
      {
        assert pairs[..i + 1][..i] == pairs[..i];
        var v := UseJIT(pairs[i]);
        lastSynced := lastSynced[pairs[i].tag := v];
        payload := payload[pairs[i].tag := v];
      }
      assert pairs[..|pairs|] == pairs;
    }

    method SyncDone(n: NodeId, member: bool, pairs: seq<Pair>)
      modifies this`nodesRevs
      ensures nodesRevs == Record(old(nodesRevs), n, member, Versions(pairs))
    {
      if !member {
        nodesRevs := nodesRevs - {n};
        return;
      }
      var ndr := if n in nodesRevs then nodesRevs[n] else map[];
      ghost var before := ndr;
      for i := 0 to |pairs|
        invariant ndr == before + Versions(pairs[..i])
      {
        assert pairs[..i + 1][..i] == pairs[..i];
        ndr := ndr[pairs[i].tag := pairs[i].version];
      }
      assert pairs[..|pairs|] == pairs;
      nodesRevs := nodesRevs[n := ndr];
    }

    /** A node has accepted the request; `put`: and applied it. */
    method Accepted(r: Reply, pairs: seq<Pair>, ghost put: bool)
      modifies this`nodesRevs, this`acks
      ensures nodesRevs == Record(old(nodesRevs), r.node, r.member, Versions(pairs))
      ensures acks == if put then old(acks) + AcksOf(r.node, Payload(pairs)) else old(acks)
      ensures old(Valid()) && put ==> Valid()
    {
      ghost var before, was := nodesRevs, acks;
      SyncDone(r.node, r.member, pairs);
      if put {
        acks := acks + AcksOf(r.node, Payload(pairs));
        if RecordsOk(before, was) {
          RecordAfterAck(before, was, r.node, r.member, pairs);
        }
      }
    }

    /** Sends the pairs to all nodes (sync), or tells the targets about them (notify). */
    method DoSync(pairs: seq<Pair>, sync: bool, replies: seq<Reply>, retries: seq<Retry>, members: set<NodeId>)
      returns (failed: nat, ghost log: seq<Reply>, lost: bool, ghost left: set<NodeId>)
      modifies this
      ensures lastSynced == old(lastSynced) + Payload(pairs)
      ensures failed == Failures(replies) + if lost then 0 else |left|
      ensures IsLog(log, sync, replies, retries, lost, left)
      ensures acks == old(acks) + if sync then AcksFrom(log, Payload(pairs)) else {}
      ensures nodesRevs == Recorded(old(nodesRevs), log, Versions(pairs), lost, members)
      ensures !sync && Retriables(replies) == {} ==> nodesRevs == Restrict(old(nodesRevs), members)
      ensures sync && old(Valid()) ==> Valid()
      ensures !sync && old(Valid()) && (forall r :: r in log ==> r.member) ==>
                (Valid() <==> AllAcked(old(acks), log, Versions(pairs), lost, members))
    {
      var _ := BuildPayload(pairs);
      ghost var k;
      var remaining;
      failed, remaining, k, lost := Request(pairs, sync, replies, retries);
      left := remaining;
      log := Log(sync, replies, retries[..k]);
      if !lost {
        Housekeep(members);
        failed := failed + |remaining|;
      }
      if !sync {
        NotifyRecords(old(nodesRevs), old(acks), replies, retries, k, lost, Versions(pairs), members);
      }
    }

    /** The first request and its retries. */
    method Request(pairs: seq<Pair>, sync: bool, replies: seq<Reply>, retries: seq<Retry>)
      returns (failed: nat, left: set<NodeId>, ghost k: nat, lost: bool)
      modifies this`nodesRevs, this`acks
      ensures failed == Failures(replies)
      ensures Rounds(retries, Retriables(replies), k, lost) && left == LeftAfter(retries[..k], Retriables(replies))
      ensures nodesRevs == RecordAll(old(nodesRevs), Log(sync, replies, retries[..k]), Versions(pairs))
      ensures acks == old(acks) + if sync then AcksFrom(Log(sync, replies, retries[..k]), Payload(pairs)) else {}
      ensures sync && old(Valid()) ==> Valid()
    {
      var refused;
      failed, refused := FirstReplies(pairs, sync, replies);
      left, k, lost := RetryRefused(pairs, sync, retries, refused);
      AcksConcat(replies, Retried(retries[..k]), Payload(pairs));
      RecordAllConcat(old(nodesRevs), if sync then replies else [], Retried(retries[..k]), Versions(pairs));
    }

    /** Up to four rounds, while there is somebody to ask. */
    method RetryRefused(pairs: seq<Pair>, sync: bool, retries: seq<Retry>, refused: set<NodeId>)
      returns (left: set<NodeId>, ghost k: nat, lost: bool)
      modifies this`nodesRevs, this`acks
      ensures Rounds(retries, refused, k, lost) && left == LeftAfter(retries[..k], refused)
      ensures nodesRevs == RecordAll(old(nodesRevs), Retried(retries[..k]), Versions(pairs))
      ensures acks == old(acks) + if sync then AcksFrom(Retried(retries[..k]), Payload(pairs)) else {}
      ensures sync && old(Valid()) ==> Valid()
    {
      left, k, lost := refused, 0, false;
      var i := 0;
      while i < 4 && i < |retries| && left != {}
        invariant k == i <= 4 && Gone(retries, refused, i) && (i > 0 ==> !retries[i - 1].stop)
        invariant left == LeftAfter(retries[..i], refused)
        invariant nodesRevs == RecordAll(old(nodesRevs), Retried(retries[..i]), Versions(pairs))
        invariant acks == old(acks) + if sync then AcksFrom(Retried(retries[..i]), Payload(pairs)) else {}
        invariant sync && old(Valid()) ==> Valid()
      {
        if retries[i].LostPrimary? {
          lost := true;
          return;
        }
        left := HandleRefused(pairs, sync, retries[i].replies, left);
        GoneNext(retries, refused, i);
        AcksConcat(Retried(retries[..i]), retries[i].replies, Payload(pairs));
        RecordAllConcat(old(nodesRevs), Retried(retries[..i]), retries[i].replies, Versions(pairs));
        k := i + 1;
        if retries[i].stop {
          break;
        }
        i := i + 1;
      }
    }

    method FirstReplies(pairs: seq<Pair>, sync: bool, replies: seq<Reply>) returns (failed: nat, refused: set<NodeId>)
      modifies this`nodesRevs, this`acks
      ensures nodesRevs == RecordAll(old(nodesRevs), if sync then replies else [], Versions(pairs))
      ensures refused == Retriables(replies)
      ensures failed == Failures(replies)
      ensures acks == old(acks) + if sync then AcksFrom(replies, Payload(pairs)) else {}
      ensures sync && old(Valid()) ==> Valid()
    {
      failed, refused := 0, {};
      for i := 0 to |replies|
        invariant nodesRevs == RecordAll(old(nodesRevs), if sync then replies[..i] else [], Versions(pairs))
        invariant refused == Retriables(replies[..i])
        invariant failed == Failures(replies[..i])
        invariant acks == old(acks) + if sync then AcksFrom(replies[..i], Payload(pairs)) else {}
        invariant sync && old(Valid()) ==> Valid()
      {
        assert replies[..i + 1][..i] == replies[..i];
        AcksNext(replies, i, Payload(pairs));
        if replies[i].outcome.Ok? {
          if sync {
            Accepted(replies[i], pairs, true);
          }
        } else if replies[i].outcome.Retriable? {
          refused := refused + {replies[i].node};
        } else {
          failed := failed + 1;
        }
      }
      assert replies[..|replies|] == replies;
    }

    /** Repeats the request to the nodes that refused it; those that accept are recorded, also when
        the request is a notification. */
    method HandleRefused(pairs: seq<Pair>, sync: bool, replies: seq<Reply>, refused: set<NodeId>) returns (left: set<NodeId>)
      modifies this`nodesRevs, this`acks
      ensures nodesRevs == RecordAll(old(nodesRevs), replies, Versions(pairs))
      ensures left == refused - AcceptedIn(replies)
      ensures acks == old(acks) + if sync then AcksFrom(replies, Payload(pairs)) else {}
      ensures sync && old(Valid()) ==> Valid()
    {
      left := refused;
      for i := 0 to |replies|
        invariant nodesRevs == RecordAll(old(nodesRevs), replies[..i], Versions(pairs))
        invariant left == refused - AcceptedIn(replies[..i])
        invariant acks == old(acks) + if sync then AcksFrom(replies[..i], Payload(pairs)) else {}
        invariant sync && old(Valid()) ==> Valid()
      {
        assert replies[..i + 1] == replies[..i] + [replies[i]];
        AcksNext(replies, i, Payload(pairs));
        if replies[i].outcome.Ok? {
          left := left - {replies[i].node};
          Accepted(replies[i], pairs, sync);
        }
      }
      assert replies[..|replies|] == replies;
    }

    /** Forgets nodes that have left. */
    method Housekeep(members: set<NodeId>)
      modifies this`nodesRevs
      ensures nodesRevs == Restrict(old(nodesRevs), members)
      ensures old(Valid()) ==> Valid()
    {
      var todo := nodesRevs.Keys;
      while todo != {}
        invariant todo <= old(nodesRevs).Keys
        invariant nodesRevs == map n | n in old(nodesRevs) && (n in members || n in todo) :: old(nodesRevs)[n]
      {
        var n :| n in todo;
        todo := todo - {n};
        if n !in members {
          nodesRevs := nodesRevs - {n};
        }
      }
    }

    /** The nodes still to be synced: exactly those not in sync, in particular every node that has
        not acknowledged some last-synced revision. */
    method Pending(others: set<NodeId>) returns (pending: set<NodeId>)
      modifies this`nodesRevs
      ensures pending == set n | n in others && !InSync(old(nodesRevs), lastSynced, n)
      ensures nodesRevs == old(nodesRevs) + map n | n in others && n !in old(nodesRevs) :: map[]
      ensures old(Valid()) ==> Valid() && forall n, t :: n in others && t in lastSynced && !AckedAtLeast(acks, n, t, lastSynced[t]) ==> n in pending
    {
      pending := {};
      var todo := others;
      while todo != {}
        invariant todo <= others && pending == set n | n in others && n !in todo && !InSync(old(nodesRevs), lastSynced, n)
        invariant nodesRevs.Keys == old(nodesRevs).Keys + (others - todo)
        invariant forall n :: n in nodesRevs ==> nodesRevs[n] == if n in old(nodesRevs) then old(nodesRevs)[n] else map[]
      {
        var n :| n in todo;
        todo := todo - {n};
        var inSync := n in nodesRevs;
        if !inSync {
          nodesRevs := nodesRevs[n := map[]];
        } else {
          inSync := HasAll(n);
        }
        if !inSync {
          pending := pending + {n};
        }
      }
      if old(Valid()) {
        forall n, t | n in others && t in lastSynced && !AckedAtLeast(acks, n, t, lastSynced[t]) ensures n in pending {
          if InSync(old(nodesRevs), lastSynced, n) {
            InSyncHasAcked(old(nodesRevs), acks, lastSynced, n, t);
          }
        }
      }
    }

    method HasAll(n: NodeId) returns (inSync: bool)
      requires n in nodesRevs
      ensures inSync == InSync(nodesRevs, lastSynced, n)
    {
      var todo := lastSynced.Keys;
      while todo != {}
        invariant todo <= lastSynced.Keys
        invariant forall t :: t in lastSynced && t !in todo ==> t in nodesRevs[n] && nodesRevs[n][t] >= lastSynced[t]
      {
        var t :| t in todo;
        todo := todo - {t};
        if t !in nodesRevs[n] || nodesRevs[n][t] < lastSynced[t] {
          return false;
        }
      }
      return true;
    }

    /** All last-synced revisions, in any order. */
    method LastPairs() returns (pairs: seq<Pair>)
      ensures Versions(pairs) == lastSynced == Payload(pairs)
    {
      pairs := [];
      var todo := lastSynced.Keys;
      while todo != {}
        invariant todo <= lastSynced.Keys
        invariant Versions(pairs) == Payload(pairs) == map t | t in lastSynced && t !in todo :: lastSynced[t]
      {
        var t :| t in todo;
        todo := todo - {t};
        ghost var before := pairs;
        pairs := pairs + [Pair(t, lastSynced[t], None, false)];
        assert pairs[..|pairs| - 1] == before;
      }
    }

    /** Sends every last-synced revision to the pending nodes. `replies` are those handled;
        `stop`: the last one told the primary to step down. */
    method HandlePending(others: set<NodeId>, replies: seq<Reply>, stop: bool) returns (failed: nat)
      modifies this`nodesRevs, this`acks
      ensures old(Valid()) ==> Valid()
      ensures AllInSync(old(nodesRevs), lastSynced, others) ==> failed == 0 && acks == old(acks) && nodesRevs == old(nodesRevs)
      ensures !AllInSync(old(nodesRevs), lastSynced, others) ==>
                && failed == (if stop then 0 else Refusals(replies))
                && acks == old(acks) + AcksFrom(replies, lastSynced)
                && (lastSynced != map[] ==> forall n :: n in others && (forall r :: r in replies && r.node == n ==> r.member) ==>
                      (InSync(nodesRevs, lastSynced, n) <==> InSync(old(nodesRevs), lastSynced, n) || Accepts(replies, n)))
    {
      failed := 0;
      var pending := Pending(others);
      assert forall n :: n in others && !InSync(old(nodesRevs), lastSynced, n) ==> n in pending;
      assert pending == {} <==> AllInSync(old(nodesRevs), lastSynced, others);
      if pending == {} {
        assert forall n :: n in others ==> n in old(nodesRevs);
        assert nodesRevs == old(nodesRevs);
        return;
      }
      failed := SendPending(replies);
      PendingAfter(old(nodesRevs), others, lastSynced, replies);
      if stop {
        failed := 0;
      }
    }

    /** Sends every last-synced revision, and records who accepts. */
    method SendPending(replies: seq<Reply>) returns (failed: nat)
      modifies this`nodesRevs, this`acks
      ensures nodesRevs == RecordAll(old(nodesRevs), replies, lastSynced) && failed == Refusals(replies)
      ensures acks == old(acks) + AcksFrom(replies, lastSynced)
      ensures old(Valid()) ==> Valid()
    {
      failed := 0;
      var pairs := LastPairs();
      for i := 0 to |replies|
        invariant nodesRevs == RecordAll(old(nodesRevs), replies[..i], lastSynced) && failed == Refusals(replies[..i])
        invariant acks == old(acks) + AcksFrom(replies[..i], lastSynced)
        invariant old(Valid()) ==> Valid()
      {
        assert replies[..i + 1][..i] == replies[..i];
        AcksNext(replies, i, lastSynced);
        if replies[i].outcome.Ok? {
          Accepted(replies[i], pairs, true);
        } else {
          failed := failed + 1;
        }
      }
      assert replies[..|replies|] == replies;
    }
  }

  ghost predicate AllInSync(nr: Records, last: map<Tag, nat>, others: set<NodeId>) {
    forall n :: n in others ==> InSync(nr, last, n)
  }

  /** After all last-synced revisions were sent to the pending nodes: exactly those are in sync that were, or
      that have accepted (if there is anything to sync). */
  lemma PendingAfter(nr: Records, others: set<NodeId>, last: map<Tag, nat>, replies: seq<Reply>)
    ensures var before := nr + map n | n in others && n !in nr :: map[];
            var after := RecordAll(before, replies, last);
            last != map[] ==> forall n :: n in others && (forall r :: r in replies && r.node == n ==> r.member) ==>
              (InSync(after, last, n) <==> InSync(nr, last, n) || Accepts(replies, n))
  {
    var before := nr + map n | n in others && n !in nr :: map[];
    forall n | last != map[] && n in others && forall r :: r in replies && r.node == n ==> r.member
      ensures InSync(RecordAll(before, replies, last), last, n) <==> InSync(nr, last, n) || Accepts(replies, n)
    {
      RecordAllIs(before, replies, last, n);
      var t :| t in last;
    }
  }

  /** A target that refuses a notification and accepts its repetition is recorded as if it had
      applied the revision: it is not pending although it has acknowledged nothing. */
  method RefusedNotification(t: NodeId, tag: Tag, v: nat) returns (y: Metasyncer, pending: set<NodeId>)
    ensures y.lastSynced == map[tag := v] && y.acks == {} && pending == {}
  {
    y := new Metasyncer();
    var pairs := [Pair(tag, v, None, false)];
    assert pairs[..0] == [];
    assert Versions(pairs) == map[tag := v];
    assert Payload(pairs) == map[tag := v];
    var first, again := [Reply(t, Retriable, true)], [Reply(t, Ok, true)];
    assert first[..0] == [] && again[..0] == [];
    var _ := y.BuildPayload(pairs);
    var _, refused := y.FirstReplies(pairs, false, first);
    var left := y.HandleRefused(pairs, false, again, refused);
    assert y.nodesRevs == Record(map[], t, true, Versions(pairs));
    pending := y.Pending({t});
  }
}
