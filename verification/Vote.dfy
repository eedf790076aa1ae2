/** Primary election: the candidate search and the majority vote (ais/vote.go, cluster/hrw.go). */
module Votes {
  import opened Common
  import opened Smaps

  type Digest = NodeId -> nat

  // ---------------------------------------------------------------- next in line

  predicate Eligible(pmap: NodeMap, skip: NodeId, p: NodeId) {
    p in pmap && p != skip && !pmap[p].nonElectable && !pmap[p].maint && !pmap[p].decomm
  }

  /** An eligible proxy with the highest digest, if there is an eligible one. */
  ghost predicate IsNext(pmap: NodeMap, digest: Digest, skip: NodeId, next: Option<NodeId>) {
    match next
    case None => forall p :: !Eligible(pmap, skip, p)
    case Some(c) => Eligible(pmap, skip, c) && forall p :: Eligible(pmap, skip, p) ==> digest(p) <= digest(c)
  }

  method HrwProxy(pmap: NodeMap, digest: Digest, skip: NodeId) returns (next: Option<NodeId>)
    ensures IsNext(pmap, digest, skip, next)
  {
    var max := 0;
    next := None;
    var todo := pmap.Keys;
    while todo != {}
      invariant todo <= pmap.Keys
      invariant next.None? ==> max == 0 && forall p :: Eligible(pmap, skip, p) ==> p in todo
      invariant next.Some? ==> Eligible(pmap, skip, next.value) && max == digest(next.value)
      invariant forall p :: Eligible(pmap, skip, p) && p !in todo ==> digest(p) <= max
    {
      var p :| p in todo;
      todo := todo - {p};
      if !Eligible(pmap, skip, p) {
        continue;
      }
      if digest(p) >= max {
        max, next := digest(p), Some(p);
      }
    }
  }

  /** A candidate is a proxy that may be elected and is neither in maintenance nor being decommissioned;
      there is none if and only if no proxy other than the skipped one is such. */
  lemma NextIsFit(pmap: NodeMap, digest: Digest, skip: NodeId, next: Option<NodeId>)
    requires IsNext(pmap, digest, skip, next)
    ensures next.Some? ==>
              next.value in pmap && next.value != skip &&
              pmap[next.value] == Flags(false, pmap[next.value].ic, false, false)
    ensures next.None? <==> forall p :: p in pmap && p != skip ==> pmap[p].nonElectable || pmap[p].maint || pmap[p].decomm
  {
    if next.None? {
      forall p | p in pmap && p != skip ensures pmap[p].nonElectable || pmap[p].maint || pmap[p].decomm {
        assert !Eligible(pmap, skip, p);
      }
    }
  }

  /** Nodes with the same proxies agree on the next primary, if digests differ. */
  lemma SameMapSameNext(pmap: NodeMap, digest: Digest, skip: NodeId, a: Option<NodeId>, b: Option<NodeId>)
    requires IsNext(pmap, digest, skip, a) && IsNext(pmap, digest, skip, b)
    requires forall p, q :: p in pmap && q in pmap && p != q ==> digest(p) != digest(q)
    ensures a == b
  {
    if a.Some? && b.Some? {
      assert Eligible(pmap, skip, a.value) && Eligible(pmap, skip, b.value);
    }
  }

  datatype Search = NoCandidate | Self | Asked(id: NodeId)

  /** A candidate that would start an election: this node, or one that accepts the request. */
  predicate Willing(self: NodeId, accepts: NodeId -> bool, p: NodeId) {
    p == self || accepts(p)
  }

  /** The search for a candidate ends, with the willing eligible proxy highest in line: every one
      before it was asked and did not accept. It ends without a candidate if and only if no eligible
      proxy is willing. */
  method OnPrimaryFail(m: Smap, digest: Digest, self: NodeId, accepts: NodeId -> bool) returns (r: Search)
    ensures r.NoCandidate? <==> forall p :: Eligible(m.pmap, m.primary, p) ==> !Willing(self, accepts, p)
    ensures !r.NoCandidate? ==>
              var c := if r.Self? then self else r.id;
              && Eligible(m.pmap, m.primary, c) && Willing(self, accepts, c) && (r.Asked? ==> c != self)
              && forall p :: Eligible(m.pmap, m.primary, p) && Willing(self, accepts, p) ==> digest(p) <= digest(c)
  {
    var pmap := m.pmap;
    while true
      invariant forall p :: Eligible(pmap, m.primary, p) ==> Eligible(m.pmap, m.primary, p)
      invariant forall p :: Eligible(m.pmap, m.primary, p) && Willing(self, accepts, p) ==> Eligible(pmap, m.primary, p)
      decreases |pmap|
    {
      var next := HrwProxy(pmap, digest, m.primary);
      if next.None? {
        return NoCandidate;
      }
      if next.value == self {
        return Self;
      }
      if accepts(next.value) {
        return Asked(next.value);
      }
      assert |pmap - {next.value}| < |pmap| by { MapShrinks(pmap, next.value); }
      pmap := pmap - {next.value};
    }
  }

  lemma MapShrinks(pmap: NodeMap, p: NodeId)
    requires p in pmap
    ensures |pmap - {p}| < |pmap|
  {
    assert (pmap - {p}).Keys == pmap.Keys - {p};
    assert |(pmap - {p}).Keys| == |pmap - {p}| && |pmap.Keys| == |pmap|;
  }

  // ---------------------------------------------------------------- voting

  datatype Ballot = Yes | No | Error

  function Yeas(results: map<NodeId, Ballot>): set<NodeId> {
    set v | v in results && results[v].Yes?
  }

  /** A majority of the nodes asked said yes, or nobody was asked. */
  predicate Wins(results: map<NodeId, Ballot>) {
    2 * |Yeas(results)| > |results| || results == map[]
  }

  method ElectAmongProxies(results: map<NodeId, Ballot>) returns (winner: bool, errors: set<NodeId>)
    ensures winner == Wins(results)
    ensures errors == set v | v in results && results[v].Error?
  {
    var y, n := 0, 0;
    errors := {};
    var todo := results.Keys;
    while todo != {}
      invariant todo <= results.Keys && y + n + |todo| == |results.Keys|
      invariant errors == Having(results, results.Keys - todo, Error)
      invariant y == |Having(results, results.Keys - todo, Yes)|
    {
      var v :| v in todo;
      NextBallot(results, todo, v, Yes);
      NextBallot(results, todo, v, Error);
      if results[v].Error? {
        errors := errors + {v};
        n := n + 1;
      } else if results[v].Yes? {
        y := y + 1;
      } else {
        n := n + 1;
      }
      todo := todo - {v};
    }
    Majority(results, y, n);
    winner := y > n || y + n == 0;
  }

  /** Those among `asked` that returned `b`. */
  ghost function Having(results: map<NodeId, Ballot>, asked: set<NodeId>, b: Ballot): set<NodeId> {
    set v | v in asked && v in results && results[v] == b
  }

  lemma NextBallot(results: map<NodeId, Ballot>, todo: set<NodeId>, v: NodeId, b: Ballot)
    requires v in results && v in todo && todo <= results.Keys
    ensures Having(results, results.Keys - (todo - {v}), b) ==
            Having(results, results.Keys - todo, b) + (if results[v] == b then {v} else {})
    ensures |Having(results, results.Keys - (todo - {v}), b)| ==
            |Having(results, results.Keys - todo, b)| + (if results[v] == b then 1 else 0)
    ensures |todo - {v}| == |todo| - 1
  {
    var x, y := Having(results, results.Keys - todo, b), Having(results, results.Keys - (todo - {v}), b);
    assert v !in x && y == x + (if results[v] == b then {v} else {});
  }

  lemma Majority(results: map<NodeId, Ballot>, y: nat, n: nat)
    requires y == |Having(results, results.Keys - {}, Yes)| && y + n == |results.Keys|
    ensures Having(results, results.Keys - {}, Error) == set v | v in results && results[v].Error?
    ensures (y > n || y + n == 0) == Wins(results)
  {
    assert Having(results, results.Keys - {}, Yes) == Yeas(results);
    assert |results.Keys| == |results| && (results == map[] <==> results.Keys == {});
  }

  /** A vote: no while the primary is believed alive, an error if nobody is eligible, otherwise yes
      exactly for the voter's own choice. */
  method VoteOnProxy(pmap: NodeMap, digest: Digest, candidate: NodeId, primary: NodeId, overdue: bool)
    returns (ballot: Ballot, choice: Option<NodeId>)
    ensures IsNext(pmap, digest, primary, choice)
    ensures ballot.Yes? <==> overdue && choice == Some(candidate)
    ensures ballot.Error? <==> overdue && choice.None?
  {
    choice := HrwProxy(pmap, digest, primary);
    if !overdue {
      return No, choice;
    }
    if choice.None? {
      return Error, choice;
    }
    ballot := if choice.value == candidate then Yes else No;
  }

  /** Among those asked, the winner has more votes than there are others, refusals and errors alike; a node
      that asks nobody wins. */
  lemma WinsIff(results: map<NodeId, Ballot>)
    ensures var y, n, e := Having(results, results.Keys, Yes), Having(results, results.Keys, No), Having(results, results.Keys, Error);
            Wins(results) <==> results.Keys == {} || |y| > |n| + |e|
  {
    var y, n, e := Having(results, results.Keys, Yes), Having(results, results.Keys, No), Having(results, results.Keys, Error);
    assert y == Yeas(results) && results.Keys == y + n + e;
    assert |y + n + e| == |y + n| + |e| && |y + n| == |y| + |n|;
    assert |results.Keys| == |results|;
  }

  /** Candidate `c` asked all other members, and a yes came only from those whose choice is `c`. */
  ghost predicate Polled(members: set<NodeId>, choice: map<NodeId, NodeId>, c: NodeId, results: map<NodeId, Ballot>) {
    && c in members && results.Keys == members - {c}
    && forall v :: v in results && results[v].Yes? ==> v in choice && choice[v] == c
  }

  lemma VoteCounts(members: set<NodeId>, choice: map<NodeId, NodeId>, c: NodeId, d: NodeId, rc: map<NodeId, Ballot>, rd: map<NodeId, Ballot>)
    requires c != d && Polled(members, choice, c, rc) && Polled(members, choice, d, rd)
    ensures Yeas(rc) !! Yeas(rd) && Yeas(rc) + Yeas(rd) <= members && c !in Yeas(rc) && d !in Yeas(rd)
    ensures |Yeas(rc)| + |Yeas(rd)| <= |members|
    ensures |rc| == |members| - 1 && |rd| == |members| - 1 && |members| >= 2
  {
    assert |Yeas(rc) + Yeas(rd)| == |Yeas(rc)| + |Yeas(rd)|;
    SubsetSize(Yeas(rc) + Yeas(rd), members);
    assert |rc.Keys| == |rc| && |rd.Keys| == |rd|;
    SubsetSize({c, d}, members);
  }

  /** Two candidates that poll the same members can both win only if the members split evenly and
      the two candidates choose one another. */
  lemma TwoWinners(members: set<NodeId>, choice: map<NodeId, NodeId>, c: NodeId, d: NodeId, rc: map<NodeId, Ballot>, rd: map<NodeId, Ballot>)
    requires c != d && Polled(members, choice, c, rc) && Polled(members, choice, d, rd)
    requires Wins(rc) && Wins(rd)
    ensures c in choice && choice[c] == d && d in choice && choice[d] == c
    ensures Yeas(rc) + Yeas(rd) == members && |Yeas(rc)| == |Yeas(rd)| && |members| == 2 * |Yeas(rc)|
  {
    VoteCounts(members, choice, c, d, rc, rd);
    assert d in rc && c in rd;
    assert |Yeas(rc) + Yeas(rd)| == |Yeas(rc)| + |Yeas(rd)|;
    SubsetSize(Yeas(rc) + Yeas(rd), members);
    assert c in Yeas(rd) && d in Yeas(rc);
  }

  /** Members whose choice is `x`. */
  ghost function Bloc(members: set<NodeId>, choice: map<NodeId, NodeId>, x: NodeId): set<NodeId> {
    set v | v in members && v in choice && choice[v] == x
  }

  /** The ballots when nobody fails to answer and nobody believes the primary alive. */
  ghost function AllVote(members: set<NodeId>, choice: map<NodeId, NodeId>, c: NodeId): map<NodeId, Ballot> {
    map v | v in members - {c} :: if v in Bloc(members, choice, c) then Yes else No
  }

  lemma BlocWins(members: set<NodeId>, choice: map<NodeId, NodeId>, c: NodeId)
    requires c in members && c !in Bloc(members, choice, c) && |members| == 2 * |Bloc(members, choice, c)|
    ensures Polled(members, choice, c, AllVote(members, choice, c)) && Wins(AllVote(members, choice, c))
  {
    var r := AllVote(members, choice, c);
    assert r.Keys == members - {c} && Yeas(r) == Bloc(members, choice, c);
    assert |r.Keys| == |r|;
  }

  /** Whether the two candidates choose one another and the members split evenly between them. */
  ghost predicate EvenSplit(members: set<NodeId>, choice: map<NodeId, NodeId>, c: NodeId, d: NodeId) {
    && c in choice && choice[c] == d && d in choice && choice[d] == c
    && Bloc(members, choice, c) + Bloc(members, choice, d) == members
    && |Bloc(members, choice, c)| == |Bloc(members, choice, d)|
  }

  /** Two candidates can both win if and only if they choose one another and the members split evenly. */
  lemma BothCanWinIff(members: set<NodeId>, choice: map<NodeId, NodeId>, c: NodeId, d: NodeId)
    requires c != d && c in members && d in members
    ensures (exists rc, rd :: Polled(members, choice, c, rc) && Polled(members, choice, d, rd) && Wins(rc) && Wins(rd))
            <==> EvenSplit(members, choice, c, d)
  {
    var bc, bd := Bloc(members, choice, c), Bloc(members, choice, d);
    assert bc !! bd && |bc + bd| == |bc| + |bd|;
    if EvenSplit(members, choice, c, d) {
      BlocWins(members, choice, c);
      BlocWins(members, choice, d);
    }
    if rc, rd :| Polled(members, choice, c, rc) && Polled(members, choice, d, rd) && Wins(rc) && Wins(rd) {
      TwoWinners(members, choice, c, d, rc, rd);
      assert Yeas(rc) <= bc && Yeas(rd) <= bd;
      assert Yeas(rc) == bc && Yeas(rd) == bd;
    }
  }

  /** So at most one wins if at least one of them is its own choice. */
  lemma AtMostOneWinner(members: set<NodeId>, choice: map<NodeId, NodeId>, c: NodeId, d: NodeId, rc: map<NodeId, Ballot>, rd: map<NodeId, Ballot>)
    requires Polled(members, choice, c, rc) && Polled(members, choice, d, rd) && Wins(rc) && Wins(rd)
    requires c in choice && choice[c] == c
    ensures c == d
  {
    if c != d {
      TwoWinners(members, choice, c, d, rc, rd);
    }
  }

  /** A node that is the only member wins. */
  lemma AloneWins(choice: map<NodeId, NodeId>, c: NodeId, results: map<NodeId, Ballot>)
    requires Polled({c}, choice, c, results)
    ensures Wins(results)
  {
    WinsIff(results);
  }

  /** The smallest case: two members that choose one another. */
  lemma ChoosingOneAnother(c: NodeId, d: NodeId)
    requires c != d
    ensures exists rc, rd :: var choice := map[c := d, d := c];
              Polled({c, d}, choice, c, rc) && Polled({c, d}, choice, d, rd) && Wins(rc) && Wins(rd)
  {
    var choice := map[c := d, d := c];
    assert Bloc({c, d}, choice, c) == {d} && Bloc({c, d}, choice, d) == {c};
    BothCanWinIff({c, d}, choice, c, d);
  }
}
