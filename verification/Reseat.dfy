/**
 `--reseat` of scripts/presentation-ledger.ts: re-pointing entries whose commit a squash
 or rebase took off the branch.

 The output of `git rev-list HEAD -- <catalog>` is a parameter, newest first; on a linear
 history it is `TouchingCommits`.
 */
module Reseat {
  import opened Texts
  import opened CommitGraph
  import opened DeployLedger

  datatype Move = Move(index: nat, from: Sha, to: Commit)

  datatype Refusal = ShallowClone | Unexplained(index: nat)

  /** `JSON.stringify` agrees on the commit's document and the stored one; `undefined` never does. */
  predicate Carries(c: Commit, slot: Slot) {
    slot == if DocumentAt(c).None? then Null else Holds(DocumentAt(c).value)
  }

  predicate Dangling(e: Entry, head: Commit) {
    !e.commit.Malformed? && !ShaIsAncestor(e.commit, Known(head))
  }

  function FirstCarrier(candidates: seq<Commit>, slot: Slot): (c: Option<Commit>)
    ensures c.Some? ==> c.value in candidates && Carries(c.value, slot)
    ensures c.None? ==> forall k :: 0 <= k < |candidates| ==> !Carries(candidates[k], slot)
  {
    if candidates == [] then None
    else if Carries(candidates[0], slot) then Some(candidates[0])
    else FirstCarrier(candidates[1..], slot)
  }

  function Reseated(e: Entry, head: Commit, candidates: seq<Commit>): Entry {
    var to := FirstCarrier(candidates, e.document);
    if Dangling(e, head) && to.Some? then e.(commit := Known(to.value)) else e
  }

  function ReseatedAll(l: Ledger, head: Commit, candidates: seq<Commit>): Ledger {
    l.(deploys := seq(|l.deploys|, i requires 0 <= i < |l.deploys| => Reseated(l.deploys[i], head, candidates)))
  }

  predicate HasUnexplained(l: Ledger, head: Commit, candidates: seq<Commit>) {
    exists i :: 0 <= i < |l.deploys| && Dangling(l.deploys[i], head) &&
                FirstCarrier(candidates, l.deploys[i].document).None?
  }

  predicate HasDangling(l: Ledger, head: Commit) {
    exists i :: 0 <= i < |l.deploys| && Dangling(l.deploys[i], head)
  }

  // ---- The command ----------------------------------------------------------

  method FindCarrier(candidates: seq<Commit>, slot: Slot) returns (c: Option<Commit>)
    ensures c == FirstCarrier(candidates, slot)
  {
    for k := 0 to |candidates|
      invariant FirstCarrier(candidates, slot) == FirstCarrier(candidates[k..], slot)
    {
      if Carries(candidates[k], slot) { return Some(candidates[k]); }
    }
    return None;
  }

  method FindReseat(l: Ledger, repo: Repo, candidates: seq<Commit>) returns (reseats: seq<Move>, refusals: seq<Refusal>)
    ensures repo.shallow ==> reseats == [] && refusals == [ShallowClone]
    ensures !repo.shallow ==> forall m :: m in reseats <==>
              m.index < |l.deploys| && Dangling(l.deploys[m.index], repo.head) && m.from == l.deploys[m.index].commit &&
              FirstCarrier(candidates, l.deploys[m.index].document) == Some(m.to)
    ensures !repo.shallow ==> forall r :: r in refusals <==>
              r.Unexplained? && r.index < |l.deploys| && Dangling(l.deploys[r.index], repo.head) &&
              FirstCarrier(candidates, l.deploys[r.index].document) == None
  {
    hide Dangling, FirstCarrier;
    reseats, refusals := [], [];
    if repo.shallow { return [], [ShallowClone]; }
    for i := 0 to |l.deploys|
      invariant forall m :: m in reseats <==>
                  m.index < i && Dangling(l.deploys[m.index], repo.head) && m.from == l.deploys[m.index].commit &&
                  FirstCarrier(candidates, l.deploys[m.index].document) == Some(m.to)
      invariant forall r :: r in refusals <==>
                  r.Unexplained? && r.index < i && Dangling(l.deploys[r.index], repo.head) &&
                  FirstCarrier(candidates, l.deploys[r.index].document) == None
    {
      var e := l.deploys[i];
      if Dangling(e, repo.head) {
        var to := FindCarrier(candidates, e.document);
        if to == None {
          refusals := refusals + [Unexplained(i)];
        } else {
          reseats := reseats + [Move(i, e.commit, to.value)];
        }
      }
    }
  }

  /** `reseats.find(x => x.index === i)`. */
  method FindMove(reseats: seq<Move>, i: nat) returns (m: Option<Move>)
    ensures m.Some? ==> m.value in reseats && m.value.index == i
    ensures m.None? ==> forall x :: x in reseats ==> x.index != i
  {
    for k := 0 to |reseats|
      invariant forall j :: 0 <= j < k ==> reseats[j].index != i
    {
      if reseats[k].index == i { return Some(reseats[k]); }
    }
    return None;
  }

  predicate MovesOf(reseats: seq<Move>, deploys: seq<Entry>, head: Commit, candidates: seq<Commit>) {
    (forall m :: m in reseats ==>
      m.index < |deploys| && Dangling(deploys[m.index], head) &&
      FirstCarrier(candidates, deploys[m.index].document) == Some(m.to)) &&
    forall i :: 0 <= i < |deploys| && Dangling(deploys[i], head) &&
                FirstCarrier(candidates, deploys[i].document).Some? ==>
      Move(i, deploys[i].commit, FirstCarrier(candidates, deploys[i].document).value) in reseats
  }

  method ApplyMoves(l: Ledger, reseats: seq<Move>, ghost head: Commit, ghost candidates: seq<Commit>)
    returns (next: Ledger)
    requires MovesOf(reseats, l.deploys, head, candidates)
    ensures next == ReseatedAll(l, head, candidates)
  {
    hide Dangling, FirstCarrier;
    var deploys: seq<Entry> := [];
    for i := 0 to |l.deploys|
      invariant |deploys| == i
      invariant forall j :: 0 <= j < i ==> deploys[j] == Reseated(l.deploys[j], head, candidates)
    {
      var e := l.deploys[i];
      var r := FindMove(reseats, i);
      deploys := deploys + [if r == None then e else e.(commit := Known(r.value.to))];
    }
    next := l.(deploys := deploys);
  }

  /** Writes only when something dangles, everything dangling is explained, and the result is valid. */
  method ReseatLedger(store: Store, repo: Repo, candidates: seq<Commit>, dryRun: bool) returns (code: nat)
    modifies store
    ensures code <= 2
    ensures code == 2 <==> repo.shallow || HasUnexplained(old(store.ledger), repo.head, candidates)
    ensures code == 0 <==>
              (!repo.shallow && !HasUnexplained(old(store.ledger), repo.head, candidates) &&
               (HasDangling(old(store.ledger), repo.head) ==>
                  Valid(ReseatedAll(old(store.ledger), repo.head, candidates), repo)))
    ensures store.ledger ==
              if code == 0 && !dryRun && HasDangling(old(store.ledger), repo.head)
              then ReseatedAll(old(store.ledger), repo.head, candidates)
              else old(store.ledger)
  {
    hide Valid, Dangling, FirstCarrier, Reseated;
    var ledger := store.ledger;
    var reseats, refusals := FindReseat(ledger, repo, candidates);
    if repo.shallow { return 2; }
    FindingsSettle(ledger, repo, candidates, reseats, refusals);
    if |reseats| == 0 {
      if |refusals| > 0 { return 2; }
      return 0;
    }
    var next := ApplyMoves(ledger, reseats, repo.head, candidates);
    if |refusals| > 0 { return 2; }
    var outcome := Validate(next, repo);
    if outcome == Threw || outcome.faults != [] { return 1; }
    if dryRun { return 0; }
    store.ledger := next;
    return 0;
  }

  lemma FindingsSettle(l: Ledger, repo: Repo, candidates: seq<Commit>, reseats: seq<Move>, refusals: seq<Refusal>)
    requires forall m :: m in reseats <==>
               m.index < |l.deploys| && Dangling(l.deploys[m.index], repo.head) &&
               m.from == l.deploys[m.index].commit &&
               FirstCarrier(candidates, l.deploys[m.index].document) == Some(m.to)
    requires forall r :: r in refusals <==>
               r.Unexplained? && r.index < |l.deploys| && Dangling(l.deploys[r.index], repo.head) &&
               FirstCarrier(candidates, l.deploys[r.index].document) == None
    ensures MovesOf(reseats, l.deploys, repo.head, candidates)
    ensures refusals != [] <==> HasUnexplained(l, repo.head, candidates)
    ensures reseats != [] || refusals != [] <==> HasDangling(l, repo.head)
  {
    hide Dangling, FirstCarrier;
    if refusals != [] { assert refusals[0] in refusals; }
    if reseats != [] { assert reseats[0] in reseats; }
    forall i | 0 <= i < |l.deploys| && Dangling(l.deploys[i], repo.head)
      ensures FirstCarrier(candidates, l.deploys[i].document) == None ==> Unexplained(i) in refusals
      ensures FirstCarrier(candidates, l.deploys[i].document).Some? ==>
                Move(i, l.deploys[i].commit, FirstCarrier(candidates, l.deploys[i].document).value) in reseats
    {
    }
  }

  // ---- Safety ---------------------------------------------------------------

  /** A repair moves only dangling entries, only their commit, onto the branch, to the same document. */
  lemma ReseatIsSafe(l: Ledger, head: Commit, candidates: seq<Commit>, i: nat)
    requires i < |l.deploys| && forall c :: c in candidates ==> IsAncestor(c, head)
    ensures var e, e' := l.deploys[i], ReseatedAll(l, head, candidates).deploys[i];
            e' == e.(commit := e'.commit) &&
            (e' != e ==>
               Dangling(e, head) && ShaIsAncestor(e'.commit, Known(head)) &&
               Carries(e'.commit.commit, e.document))
  {
    hide IsAncestor, Carries;
  }

  /** A second run finds only what the first already refused. */
  lemma SecondRunFindsNothing(l: Ledger, head: Commit, candidates: seq<Commit>)
    requires forall c :: c in candidates ==> IsAncestor(c, head)
    ensures ReseatedAll(ReseatedAll(l, head, candidates), head, candidates) == ReseatedAll(l, head, candidates)
    ensures !HasUnexplained(l, head, candidates) ==> !HasDangling(ReseatedAll(l, head, candidates), head)
  {
    hide IsAncestor, Carries, Dangling;
    var once := ReseatedAll(l, head, candidates);
    forall i | 0 <= i < |l.deploys|
      ensures Reseated(once.deploys[i], head, candidates) == once.deploys[i]
      ensures Dangling(once.deploys[i], head) ==> HasUnexplained(l, head, candidates)
    {
      OnceIsEnough(l.deploys[i], head, candidates);
    }
  }

  lemma OnceIsEnough(e: Entry, head: Commit, candidates: seq<Commit>)
    requires forall c :: c in candidates ==> IsAncestor(c, head)
    ensures Reseated(Reseated(e, head, candidates), head, candidates) == Reseated(e, head, candidates)
    ensures Dangling(Reseated(e, head, candidates), head) ==>
              Dangling(e, head) && FirstCarrier(candidates, e.document).None?
  {
    hide IsAncestor, Carries;
  }
}
