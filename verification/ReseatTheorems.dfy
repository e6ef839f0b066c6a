/**
 When `--reseat` is sure to succeed, and a history on which it is not.

 On a linear branch whose catalog history holds each stored document once and in ledger
 order, every dangling entry is put back and the result validates.
 */
module ReseatTheorems {
  import opened Texts
  import opened Catalog
  import opened CommitGraph
  import opened DeployLedger
  import opened DeployLedgerTheorems
  import opened Reseat

  // ---- Exactly when the repair validates ---------------------------------------

  /** `p` is the newest commit on the branch that touched the catalog and carries the document. */
  ghost predicate NewestCarrierAt(head: Commit, slot: Slot, p: nat)
    requires Linear(head)
  {
    var h := History(head);
    p < |h| && Touches(h[p]) && Carries(h[p], slot) &&
    forall r :: p < r < |h| && Touches(h[r]) ==> !Carries(h[r], slot)
  }

  /** Where an entry belongs: its newest carrier if it dangles, else its own commit, with its document. */
  ghost predicate SeatsAt(head: Commit, e: Entry, p: nat)
    requires Linear(head)
  {
    p < |History(head)| &&
    if Dangling(e, head) then NewestCarrierAt(head, e.document, p)
    else e.commit == Known(History(head)[p]) && SameDocument(DocumentAt(History(head)[p]), e.document)
  }

  /** Every entry has a seat, and the seats are in ledger order. */
  ghost predicate SeatedInOrder(deploys: seq<Entry>, head: Commit, seats: seq<nat>)
    requires Linear(head)
  {
    |seats| == |deploys| &&
    (forall i :: 0 <= i < |deploys| ==> SeatsAt(head, deploys[i], seats[i])) &&
    (forall i :: 1 <= i < |seats| ==> seats[i - 1] <= seats[i])
  }

  lemma CarriesIsSame(c: Commit, slot: Slot)
    requires Carries(c, slot)
    ensures SameDocument(DocumentAt(c), slot)
  {
  }

  /** The candidates come newest first, so the first carrier is the newest. */
  lemma {:induction false} FirstCarrierIsNewest(head: Commit, slot: Slot) returns (p: nat)
    requires Linear(head) && FirstCarrier(TouchingCommits(head), slot).Some?
    ensures NewestCarrierAt(head, slot, p)
    ensures FirstCarrier(TouchingCommits(head), slot) == Some(History(head)[p])
    decreases head
  {
    hide Touches, Carries, FirstCarrier, TouchingCommits;
    var h := History(head);
    if Touches(head) && Carries(head, slot) {
      HeadCarrier(head, slot);
      p := |h| - 1;
    } else {
      SkipNonCarrier(head, slot);
      p := FirstCarrierIsNewest(head.parents[0], slot);
      var below := History(head.parents[0]);
      assert h == below + [head] && h[p] == below[p];
    }
  }

  lemma HeadCarrier(head: Commit, slot: Slot)
    requires Linear(head) && Touches(head) && Carries(head, slot)
    ensures FirstCarrier(TouchingCommits(head), slot) == Some(head)
  {
    hide Touches, Carries;
  }

  lemma SkipNonCarrier(head: Commit, slot: Slot)
    requires Linear(head) && !(Touches(head) && Carries(head, slot)) && FirstCarrier(TouchingCommits(head), slot).Some?
    ensures head.parents != []
    ensures FirstCarrier(TouchingCommits(head), slot) == FirstCarrier(TouchingCommits(head.parents[0]), slot)
  {
    hide Touches, Carries;
    var below := if head.parents == [] then [] else TouchingCommits(head.parents[0]);
    assert ([head] + below)[1..] == below && [] + below == below;
  }

  lemma CarrierIsFound(head: Commit, slot: Slot, p: nat)
    requires Linear(head) && NewestCarrierAt(head, slot, p)
    ensures FirstCarrier(TouchingCommits(head), slot) == Some(History(head)[p])
  {
    hide History, Touches, Carries;
    TouchingIsListed(head, p);
    var q := FirstCarrierIsNewest(head, slot);
    assert p == q;
  }

  /** An entry with a seat is re-pointed to it, and is sound there. */
  lemma SeatedIsSound(head: Commit, e: Entry, p: nat)
    requires Linear(head) && SeatsAt(head, e, p)
    ensures Reseated(e, head, TouchingCommits(head)) == e.(commit := Known(History(head)[p]))
    ensures GitEntrySound(Reseated(e, head, TouchingCommits(head)), head)
  {
    hide History, TouchingCommits, Carries, Touches, IsAncestor, SameDocument;
    HeadIsLast(head, p);
    if Dangling(e, head) {
      CarrierIsFound(head, e.document, p);
      CarriesIsSame(History(head)[p], e.document);
    }
  }

  /** An entry sound after the repair has a seat. */
  lemma SoundIsSeated(head: Commit, e: Entry) returns (p: nat)
    requires Linear(head) && !e.commit.Malformed?
    requires GitEntrySound(Reseated(e, head, TouchingCommits(head)), head)
    ensures SeatsAt(head, e, p)
  {
    hide History, TouchingCommits, Carries, Touches, IsAncestor, SameDocument;
    if Dangling(e, head) {
      p := FirstCarrierIsNewest(head, e.document);
    } else {
      p := AncestorInHistory(e.commit.commit, head);
    }
  }

  lemma SeatedLink(head: Commit, d: Entry, e: Entry, p: nat, q: nat)
    requires Linear(head) && SeatsAt(head, d, p) && SeatsAt(head, e, q)
    ensures ChainLink(Reseated(d, head, TouchingCommits(head)).commit,
                      Reseated(e, head, TouchingCommits(head)).commit) <==>
            p <= q
  {
    hide History, TouchingCommits, IsAncestor, Reseated;
    SeatedIsSound(head, d, p);
    SeatedIsSound(head, e, q);
    AncestorIffEarlier(head, p, q);
  }

  lemma SeatedInOrderIsValid(l: Ledger, repo: Repo, seats: seq<nat>)
    requires Linear(repo.head) && OfflineSound(l, repo.live.content) && SeatedInOrder(l.deploys, repo.head, seats)
    ensures Valid(ReseatedAll(l, repo.head, TouchingCommits(repo.head)), repo)
  {
    hide OfflineSound, SeatsAt, Valid, EntrySound, GitEntrySound, ChainLink, Before, Distinct, Aggregates, Keys,
      TouchingCommits, FirstCarrier, Dangling;
    var candidates := TouchingCommits(repo.head);
    var next := ReseatedAll(l, repo.head, candidates);
    OfflineParts(l, repo.live.content);
    ReseatedKeepsDigests(l, repo.head, candidates);
    DistinctKeys(next.deploys);
    forall i | 0 <= i < |next.deploys|
      ensures EntrySound(next.deploys[i]) && GitEntrySound(next.deploys[i], repo.head)
    {
      ReseatedEntrySound(l.deploys[i], repo.head, candidates);
      SeatedIsSound(repo.head, l.deploys[i], seats[i]);
    }
    forall i | 1 <= i < |next.deploys|
      ensures ChainLink(next.deploys[i - 1].commit, next.deploys[i].commit)
    {
      SeatedLink(repo.head, l.deploys[i - 1], l.deploys[i], seats[i - 1], seats[i]);
    }
    PartsValid(next, repo);
  }

  lemma NotMalformed(e: Entry)
    requires EntrySound(e)
    ensures !e.commit.Malformed?
  {
  }

  lemma {:induction false} SeatsUpTo(l: Ledger, repo: Repo, n: nat) returns (seats: seq<nat>)
    requires Linear(repo.head) && OfflineSound(l, repo.live.content) && n <= |l.deploys|
    requires Valid(ReseatedAll(l, repo.head, TouchingCommits(repo.head)), repo)
    ensures |seats| == n && forall i :: 0 <= i < n ==> SeatsAt(repo.head, l.deploys[i], seats[i])
    decreases n
  {
    hide OfflineSound, SeatsAt, Valid, EntrySound, GitEntrySound, ChainLink, Before, Distinct, Aggregates,
      TouchingCommits, FirstCarrier, Dangling, Reseated;
    if n == 0 {
      seats := [];
    } else {
      var front := SeatsUpTo(l, repo, n - 1);
      OfflineParts(l, repo.live.content);
      NotMalformed(l.deploys[n - 1]);
      var next := ReseatedAll(l, repo.head, TouchingCommits(repo.head));
      ValidParts(next, repo);
      assert next.deploys[n - 1] == Reseated(l.deploys[n - 1], repo.head, TouchingCommits(repo.head));
      var p := SoundIsSeated(repo.head, l.deploys[n - 1]);
      seats := front + [p];
    }
  }

  lemma ValidIsSeatedInOrder(l: Ledger, repo: Repo) returns (seats: seq<nat>)
    requires Linear(repo.head) && OfflineSound(l, repo.live.content)
    requires Valid(ReseatedAll(l, repo.head, TouchingCommits(repo.head)), repo)
    ensures SeatedInOrder(l.deploys, repo.head, seats)
  {
    hide OfflineSound, SeatsAt, Valid, EntrySound, GitEntrySound, ChainLink, Before, Distinct, Aggregates,
      TouchingCommits, FirstCarrier, Dangling, Reseated;
    seats := SeatsUpTo(l, repo, |l.deploys|);
    var next := ReseatedAll(l, repo.head, TouchingCommits(repo.head));
    ValidParts(next, repo);
    forall i | 1 <= i < |seats| ensures seats[i - 1] <= seats[i] {
      assert ChainLink(next.deploys[i - 1].commit, next.deploys[i].commit);
      SeatedLink(repo.head, l.deploys[i - 1], l.deploys[i], seats[i - 1], seats[i]);
    }
  }

  lemma ValidIsExplained(l: Ledger, repo: Repo, candidates: seq<Commit>)
    requires Valid(ReseatedAll(l, repo.head, candidates), repo)
    ensures !HasUnexplained(l, repo.head, candidates)
  {
    hide EntrySound, Before, Distinct, Aggregates, Keys, ChainLink, FirstCarrier, IsAncestor, SameDocument;
    ValidParts(ReseatedAll(l, repo.head, candidates), repo);
    forall i | 0 <= i < |l.deploys| && Dangling(l.deploys[i], repo.head)
      ensures FirstCarrier(candidates, l.deploys[i].document).Some?
    {
      assert GitEntrySound(ReseatedAll(l, repo.head, candidates).deploys[i], repo.head);
    }
  }

  /**
   On a linear branch the command repairs the ledger if and only if every dangling entry
   has a carrier, every other its own document, and the newest carriers and kept commits
   stand in ledger order.
   */
  lemma ReseatSucceedsIff(l: Ledger, repo: Repo)
    requires Linear(repo.head) && OfflineSound(l, repo.live.content)
    ensures var candidates := TouchingCommits(repo.head);
            !HasUnexplained(l, repo.head, candidates) && Valid(ReseatedAll(l, repo.head, candidates), repo) <==>
            exists seats :: SeatedInOrder(l.deploys, repo.head, seats)
  {
    hide *;
    if Valid(ReseatedAll(l, repo.head, TouchingCommits(repo.head)), repo) {
      ValidIsExplained(l, repo, TouchingCommits(repo.head));
      var seats := ValidIsSeatedInOrder(l, repo);
    }
    if seats :| SeatedInOrder(l.deploys, repo.head, seats) {
      SeatedInOrderIsValid(l, repo, seats);
      ValidIsExplained(l, repo, TouchingCommits(repo.head));
    }
  }

  // ---- Documents introduced once, in order --------------------------------------

  /** `mark` is the only commit that brought the document into the catalog. */
  ghost predicate IntroducedOnceAt(head: Commit, slot: Slot, mark: nat)
    requires Linear(head)
  {
    var h := History(head);
    mark < |h| && Touches(h[mark]) && Carries(h[mark], slot) &&
    forall r :: 0 <= r < |h| && Touches(h[r]) && Carries(h[r], slot) ==> r == mark
  }

  /** The floor stands on the branch before the catalog's first commit. */
  ghost predicate FloorAt(head: Commit, e: Entry, mark: nat)
    requires Linear(head)
  {
    var h := History(head);
    mark < |h| && e.commit == Known(h[mark]) && forall r :: 0 <= r <= mark ==> !Touches(h[r])
  }

  /** One mark an entry, in ledger order; an entry still on the branch carries its document. */
  ghost predicate OnceInOrder(deploys: seq<Entry>, head: Commit, marks: seq<nat>)
    requires Linear(head)
  {
    |marks| == |deploys| &&
    (forall i :: 0 <= i < |deploys| ==>
      if deploys[i].document == Null then i == 0 && FloorAt(head, deploys[i], marks[i])
      else IntroducedOnceAt(head, deploys[i].document, marks[i]) &&
           (ShaIsAncestor(deploys[i].commit, Known(head)) ==>
            Carries(deploys[i].commit.commit, deploys[i].document))) &&
    (forall i, j :: 0 <= i < j < |deploys| ==> marks[i] < marks[j])
  }

  /** Position `p` shows the document its mark brought in. */
  ghost predicate ShowsMark(head: Commit, mark: nat, p: nat)
    requires Linear(head)
  {
    mark <= p < |History(head)| && forall r :: mark < r <= p ==> !Touches(History(head)[r])
  }

  /** Before the first touching commit there is no catalog. */
  lemma {:induction false} UntouchedIsAbsent(head: Commit, p: nat)
    requires Linear(head) && p < |History(head)| && forall r :: 0 <= r <= p ==> !Touches(History(head)[r])
    ensures History(head)[p].catalog == None
    decreases p
  {
    var h := History(head);
    var c := h[p];
    HistorySteps(head, p);
    if c.parents != [] {
      assert History(c) == History(c.parents[0]) + [c];
      assert History(c)[p - 1] == c.parents[0] == h[p - 1];
      UntouchedIsAbsent(head, p - 1);
    }
  }

  lemma FloorSeat(head: Commit, e: Entry, mark: nat)
    requires Linear(head) && e.document == Null && FloorAt(head, e, mark)
    ensures ShowsMark(head, mark, mark) && SeatsAt(head, e, mark)
  {
    UntouchedIsAbsent(head, mark);
    EarlierIsAncestor(head, mark, |History(head)| - 1);
  }

  lemma DanglingSeat(head: Commit, e: Entry, mark: nat)
    requires Linear(head) && Dangling(e, head) && IntroducedOnceAt(head, e.document, mark)
    ensures ShowsMark(head, mark, mark) && SeatsAt(head, e, mark)
  {
    hide History, Dangling;
  }

  lemma KeptSeat(head: Commit, e: Entry, mark: nat) returns (p: nat)
    requires Linear(head) && !Dangling(e, head) && e.commit.Known? && e.document.Holds?
    requires IntroducedOnceAt(head, e.document, mark) && Carries(e.commit.commit, e.document)
    ensures ShowsMark(head, mark, p) && SeatsAt(head, e, p)
  {
    hide History, IsAncestor;
    p := AncestorInHistory(e.commit.commit, head);
    var q := LatestTouch(head, p);
    assert Carries(History(head)[q], e.document);
    assert q == mark;
    CarriesIsSame(e.commit.commit, e.document);
  }

  /** Where an entry sits after the repair. */
  lemma SeatOf(l: Ledger, head: Commit, marks: seq<nat>, i: nat) returns (p: nat)
    requires Linear(head) && OnceInOrder(l.deploys, head, marks) && i < |l.deploys|
    requires EntrySound(l.deploys[i])
    ensures i < |marks| && ShowsMark(head, marks[i], p) && SeatsAt(head, l.deploys[i], p)
  {
    hide History, IntroducedOnceAt, FloorAt, Carries, IsAncestor, PresentationDigest, SameDocument, SeatsAt, ShowsMark;
    var e := l.deploys[i];
    if e.document == Null {
      FloorSeat(head, e, marks[i]);
      p := marks[i];
    } else if Dangling(e, head) {
      DanglingSeat(head, e, marks[i]);
      p := marks[i];
    } else {
      p := KeptSeat(head, e, marks[i]);
    }
  }

  /** A later mark touches the catalog, so no earlier entry's seat reaches it. */
  lemma SeatsInOrder(deploys: seq<Entry>, head: Commit, marks: seq<nat>, i: nat, j: nat, p: nat, q: nat)
    requires Linear(head) && OnceInOrder(deploys, head, marks) && i < j < |deploys|
    requires ShowsMark(head, marks[i], p) && ShowsMark(head, marks[j], q)
    ensures p < q
  {
    hide History;
    assert IntroducedOnceAt(head, deploys[j].document, marks[j]);
  }

  lemma HeadIsLast(head: Commit, p: nat)
    requires Linear(head) && p < |History(head)|
    ensures IsAncestor(History(head)[p], head)
  {
    EarlierIsAncestor(head, p, |History(head)| - 1);
  }

  lemma ReseatedEntrySound(e: Entry, head: Commit, candidates: seq<Commit>)
    requires EntrySound(e)
    ensures EntrySound(Reseated(e, head, candidates))
  {
    hide PresentationDigest, FirstCarrier, Dangling;
  }

  lemma ReseatedKeepsDigests(l: Ledger, head: Commit, candidates: seq<Commit>)
    ensures Aggregates(ReseatedAll(l, head, candidates).deploys) == Aggregates(l.deploys)
  {
    hide FirstCarrier, Dangling;
  }

  lemma DistinctKeys(deploys: seq<Entry>)
    requires Distinct(Aggregates(deploys))
    ensures Distinct(Keys(deploys))
  {
    forall i, j | 0 <= i < j < |deploys|
      ensures Keys(deploys)[i] != Keys(deploys)[j]
    {
      assert Aggregates(deploys)[i] != Aggregates(deploys)[j];
    }
  }

  lemma OfflineParts(l: Ledger, live: Content)
    requires OfflineSound(l, live)
    ensures l.schemaOk && l.deploys != [] && Distinct(Aggregates(l.deploys))
    ensures forall i :: 0 <= i < |l.deploys| ==> EntrySound(l.deploys[i])
    ensures forall i :: 1 <= i < |l.deploys| ==> Before(l.deploys[i - 1].at, l.deploys[i].at)
    ensures l.deploys[|l.deploys| - 1].recorded.aggregate == OfContent(live)
  {
    hide EntrySound, Before, Distinct, Aggregates, Keys;
  }

  lemma {:induction false} MarkedSeats(l: Ledger, head: Commit, marks: seq<nat>, n: nat) returns (seats: seq<nat>)
    requires Linear(head) && OnceInOrder(l.deploys, head, marks) && n <= |l.deploys|
    requires forall i :: 0 <= i < |l.deploys| ==> EntrySound(l.deploys[i])
    ensures |seats| == n && |marks| == |l.deploys|
    ensures forall i :: 0 <= i < n ==> ShowsMark(head, marks[i], seats[i]) && SeatsAt(head, l.deploys[i], seats[i])
    decreases n
  {
    hide ShowsMark, SeatsAt, EntrySound, IntroducedOnceAt, FloorAt, Carries, Dangling;
    if n == 0 {
      seats := [];
    } else {
      var front := MarkedSeats(l, head, marks, n - 1);
      var p := SeatOf(l, head, marks, n - 1);
      seats := front + [p];
    }
  }

  /**
   On a linear branch whose touching commits hold each stored document once, in ledger
   order, every dangling entry is explained and the repaired ledger is valid, so the
   command answers 0 and writes it.
   */
  lemma ReseatSucceedsOnLinearHistory(l: Ledger, repo: Repo, marks: seq<nat>)
    requires Linear(repo.head) && OfflineSound(l, repo.live.content) && OnceInOrder(l.deploys, repo.head, marks)
    ensures !HasUnexplained(l, repo.head, TouchingCommits(repo.head))
    ensures Valid(ReseatedAll(l, repo.head, TouchingCommits(repo.head)), repo)
  {
    hide OfflineSound, OnceInOrder, Valid, EntrySound, SeatsAt, ShowsMark, HasUnexplained, TouchingCommits, ReseatedAll,
      Distinct, Aggregates, Before;
    OfflineParts(l, repo.live.content);
    var seats := MarkedSeats(l, repo.head, marks, |l.deploys|);
    forall i | 1 <= i < |seats| ensures seats[i - 1] <= seats[i] {
      SeatsInOrder(l.deploys, repo.head, marks, i - 1, i, seats[i - 1], seats[i]);
    }
    assert SeatedInOrder(l.deploys, repo.head, seats);
    ReseatSucceedsIff(l, repo);
  }

  // ---- A catalog that went back and forth ------------------------------------

  function Version(n: int): Document {
    Document(Content(0, Some(n), map[]), 0)
  }

  function Revision(parents: seq<Commit>, n: int, message: int): Commit {
    Commit(parents, Some(CatalogFile(Some(Version(n)), 0)), message)
  }

  const FIRST := Revision([], 1, 1)
  const SECOND := Revision([FIRST], 2, 2)
  const THIRD := Revision([SECOND], 1, 3)
  const FOURTH := Revision([THIRD], 2, 4)
  const LOST := Revision([], 1, 5)

  function EntryFor(at: int, c: Commit, n: int): Entry {
    var content := Version(n).content;
    Entry(Stamp(true, Some(at)), Known(c), content.configVersion, PresentationDigest(content), None, Holds(Version(n)))
  }

  function TwoDeploys(c: Commit): Ledger {
    Ledger(true, [EntryFor(1, c, 1), EntryFor(2, SECOND, 2)])
  }

  const NEWEST_FIRST := [FOURTH, THIRD, SECOND, FIRST]

  lemma BranchTouches()
    ensures Linear(FOURTH) && TouchingCommits(FOURTH) == NEWEST_FIRST
  {
    assert Linear(SECOND) && TouchingCommits(SECOND) == [SECOND, FIRST];
    assert Linear(THIRD) && TouchingCommits(THIRD) == [THIRD, SECOND, FIRST];
  }

  lemma BranchAncestry()
    ensures !IsAncestor(LOST, FOURTH) && !IsAncestor(THIRD, SECOND)
    ensures IsAncestor(FIRST, SECOND) && IsAncestor(FIRST, FOURTH) && IsAncestor(SECOND, FOURTH)
  {
    assert IsAncestor(SECOND, THIRD.parents[0]) && IsAncestor(THIRD, FOURTH.parents[0]);
    assert IsAncestor(FIRST, SECOND.parents[0]);
    AncestorTransitive(SECOND, THIRD, FOURTH);
    AncestorTransitive(FIRST, SECOND, FOURTH);
    assert !IsAncestor(LOST, FIRST) && !IsAncestor(LOST, SECOND) && !IsAncestor(LOST, THIRD);
    assert !IsAncestor(THIRD, FIRST);
  }

  lemma TwoDeploysValid()
    ensures Valid(TwoDeploys(FIRST), Repo(FOURTH, Version(2), false))
  {
    hide IsAncestor, SectionsAt, Present;
    BranchAncestry();
    var l := TwoDeploys(FIRST);
    assert Distinct(Aggregates(l.deploys));
    DistinctKeys(l.deploys);
    assert EntrySound(l.deploys[0]) && EntrySound(l.deploys[1]);
  }

  /**
   The candidates come newest first. When the branch reverted to an older document and left
   it again, the lost entry is put on the revert, after its successor: the command refuses
   a ledger that pointing at the first carrier instead would have repaired.
   */
  lemma NewestCarrierBreaksTheChain()
    ensures Linear(FOURTH) && TouchingCommits(FOURTH) == NEWEST_FIRST
    ensures HasDangling(TwoDeploys(LOST), FOURTH) && !HasUnexplained(TwoDeploys(LOST), FOURTH, NEWEST_FIRST)
    ensures ReseatedAll(TwoDeploys(LOST), FOURTH, NEWEST_FIRST) == TwoDeploys(THIRD)
    ensures !Valid(TwoDeploys(THIRD), Repo(FOURTH, Version(2), false))
    ensures Valid(TwoDeploys(FIRST), Repo(FOURTH, Version(2), false))
  {
    hide *;
    BranchTouches();
    LostGoesToTheRevert();
    BackwardsIsInvalid();
    TwoDeploysValid();
  }

  lemma LostGoesToTheRevert()
    ensures HasDangling(TwoDeploys(LOST), FOURTH) && !HasUnexplained(TwoDeploys(LOST), FOURTH, NEWEST_FIRST)
    ensures ReseatedAll(TwoDeploys(LOST), FOURTH, NEWEST_FIRST) == TwoDeploys(THIRD)
  {
    hide IsAncestor, PresentationDigest;
    BranchAncestry();
    var l := TwoDeploys(LOST);
    RevertIsFirstCarrier();
    assert Dangling(l.deploys[0], FOURTH) && !Dangling(l.deploys[1], FOURTH);
    assert ReseatedAll(l, FOURTH, NEWEST_FIRST).deploys == TwoDeploys(THIRD).deploys;
  }

  lemma RevertIsFirstCarrier()
    ensures FirstCarrier(NEWEST_FIRST, Holds(Version(1))) == Some(THIRD)
  {
    assert !Carries(NEWEST_FIRST[0], Holds(Version(1)));
    assert NEWEST_FIRST[1..][0] == THIRD && Carries(THIRD, Holds(Version(1)));
  }

  lemma BackwardsIsInvalid()
    ensures !Valid(TwoDeploys(THIRD), Repo(FOURTH, Version(2), false))
  {
    hide IsAncestor, OfflineSound, GitEntrySound, PresentationDigest;
    BranchAncestry();
    assert !ChainLink(TwoDeploys(THIRD).deploys[0].commit, TwoDeploys(THIRD).deploys[1].commit);
  }
}
