/** What validation gives a deploy ledger, when recording succeeds, and what runs of records keep. */
module DeployLedgerTheorems {
  import opened Catalog
  import opened CommitGraph
  import opened DeployLedger

  // ---- A valid ledger is a chain --------------------------------------------

  /** The entry carries the catalog of its own commit. */
  predicate Authentic(e: Entry) {
    e.commit.Known? && SameDocument(DocumentAt(e.commit.commit), e.document)
  }

  /** `a` is an earlier version than `b`, by time and by ancestry. */
  predicate Precedes(a: Entry, b: Entry) {
    Before(a.at, b.at) && ShaIsAncestor(a.commit, b.commit) && a.commit != b.commit &&
    a.recorded.aggregate != b.recorded.aggregate
  }

  ghost predicate IsChain(deploys: seq<Entry>) {
    (forall i :: 0 <= i < |deploys| ==> EntrySound(deploys[i]) && Authentic(deploys[i])) &&
    (forall i, j :: 0 <= i < j < |deploys| ==> Precedes(deploys[i], deploys[j]))
  }

  lemma ValidEntry(l: Ledger, repo: Repo, i: nat)
    requires Valid(l, repo) && i < |l.deploys|
    ensures EntrySound(l.deploys[i]) && Authentic(l.deploys[i])
    ensures ShaIsAncestor(l.deploys[i].commit, Known(repo.head))
  {
    hide Before, Distinct, Aggregates, Keys, GitChainSound, PresentationDigest, IsAncestor;
    assert EntrySound(l.deploys[i]) && GitEntrySound(l.deploys[i], repo.head);
  }

  lemma ValidLink(l: Ledger, repo: Repo, i: nat)
    requires Valid(l, repo) && 1 <= i < |l.deploys|
    ensures Before(l.deploys[i - 1].at, l.deploys[i].at)
    ensures ShaIsAncestor(l.deploys[i - 1].commit, l.deploys[i].commit)
  {
    hide Before, EntrySound, GitEntrySound, Distinct, Aggregates, Keys, IsAncestor;
    ValidEntry(l, repo, i - 1);
    ValidEntry(l, repo, i);
    assert ChainLink(l.deploys[i - 1].commit, l.deploys[i].commit);
  }

  lemma ShaAncestorTransitive(a: Sha, b: Sha, c: Sha)
    requires ShaIsAncestor(a, b) && ShaIsAncestor(b, c)
    ensures ShaIsAncestor(a, c)
  {
    AncestorTransitive(a.commit, b.commit, c.commit);
  }

  /** Neighbour order reaches every pair. */
  lemma {:induction false} OrderSpreads(l: Ledger, repo: Repo, i: nat, j: nat)
    requires Valid(l, repo) && i < j < |l.deploys|
    ensures Before(l.deploys[i].at, l.deploys[j].at) && ShaIsAncestor(l.deploys[i].commit, l.deploys[j].commit)
    decreases j - i
  {
    hide Valid, IsAncestor, ShaIsAncestor;
    ValidLink(l, repo, j);
    if i < j - 1 {
      OrderSpreads(l, repo, i, j - 1);
      ShaAncestorTransitive(l.deploys[i].commit, l.deploys[j - 1].commit, l.deploys[j].commit);
    }
  }

  /** One commit carries one document, hence one digest. */
  lemma SameCommitSameDigest(a: Entry, b: Entry)
    requires EntrySound(a) && Authentic(a) && EntrySound(b) && Authentic(b) && a.commit == b.commit
    ensures a.recorded.aggregate == b.recorded.aggregate
  {
    hide SectionsAt, Present, DocumentAt;
  }

  lemma PairPrecedes(l: Ledger, repo: Repo, i: nat, j: nat)
    requires Valid(l, repo) && i < j < |l.deploys|
    ensures Precedes(l.deploys[i], l.deploys[j])
  {
    hide Valid, EntrySound, Authentic, ShaIsAncestor, Before;
    OrderSpreads(l, repo, i, j);
    ValidEntry(l, repo, i);
    ValidEntry(l, repo, j);
    ValidDigestsDiffer(l, repo);
    var digests := Aggregates(l.deploys);
    assert digests[i] != digests[j];
    if l.deploys[i].commit == l.deploys[j].commit { SameCommitSameDigest(l.deploys[i], l.deploys[j]); }
  }

  /**
   Whatever the validator accepts is a chain: for all pairs, not only neighbours, time and
   ancestry agree with the index and no commit or digest repeats; every entry lies on
   HEAD's history, carries its own commit's document, and the newest describes the live one.
   */
  lemma ValidLedgerIsChain(l: Ledger, repo: Repo)
    requires Valid(l, repo)
    ensures l.deploys != [] && IsChain(l.deploys)
    ensures forall i :: 0 <= i < |l.deploys| ==> ShaIsAncestor(l.deploys[i].commit, Known(repo.head))
    ensures l.deploys[|l.deploys| - 1].recorded == PresentationDigest(repo.live.content)
  {
    hide *;
    ValidNewest(l, repo);
    forall i | 0 <= i < |l.deploys|
      ensures EntrySound(l.deploys[i]) && Authentic(l.deploys[i]) &&
              ShaIsAncestor(l.deploys[i].commit, Known(repo.head))
    {
      ValidEntry(l, repo, i);
    }
    forall i, j | 0 <= i < j < |l.deploys|
      ensures Precedes(l.deploys[i], l.deploys[j])
    {
      PairPrecedes(l, repo, i, j);
    }
    ChainFromParts(l.deploys);
  }

  lemma ChainFromParts(deploys: seq<Entry>)
    requires forall i :: 0 <= i < |deploys| ==> EntrySound(deploys[i]) && Authentic(deploys[i])
    requires forall i, j :: 0 <= i < j < |deploys| ==> Precedes(deploys[i], deploys[j])
    ensures IsChain(deploys)
  {
    hide EntrySound, Authentic, Precedes;
  }

  lemma ValidNewest(l: Ledger, repo: Repo)
    requires Valid(l, repo)
    ensures l.deploys != []
    ensures l.deploys[|l.deploys| - 1].recorded == PresentationDigest(repo.live.content)
  {
    hide Before, Distinct, Aggregates, Keys, GitEntrySound, GitChainSound, SectionsAt, Present;
    assert EntrySound(l.deploys[|l.deploys| - 1]);
  }

  // ---- When recording succeeds ----------------------------------------------

  /** What a caller of `--record` can see beforehand, given a ledger valid until now. */
  predicate Extends(l: Ledger, a: Attempt)
    requires l.deploys != []
  {
    var newest := l.deploys[|l.deploys| - 1];
    a.at.isoShaped && Before(newest.at, a.at) && ShaIsAncestor(newest.commit, Known(a.repo.head)) &&
    forall i :: 0 <= i < |l.deploys| ==> l.deploys[i].recorded.aggregate != OfContent(a.repo.live.content)
  }

  lemma NewEntrySound(a: Attempt)
    requires Committed(a.repo)
    ensures EntrySound(NewEntry(a)) <==> a.at.isoShaped
    ensures GitEntrySound(NewEntry(a), a.repo.head)
  {
  }

  lemma NewDigestsDiffer(deploys: seq<Entry>, e: Entry)
    requires Distinct(Aggregates(deploys))
    requires forall i :: 0 <= i < |deploys| ==> deploys[i].recorded.aggregate != e.recorded.aggregate
    ensures Distinct(Aggregates(deploys + [e])) && Distinct(Keys(deploys + [e]))
  {
    var all := deploys + [e];
    var digests := Aggregates(all);
    forall i, j | 0 <= i < j < |all|
      ensures all[i].recorded.aggregate != all[j].recorded.aggregate
    {
      if j < |deploys| { assert Aggregates(deploys)[i] != Aggregates(deploys)[j]; }
    }
  }

  lemma ValidParts(l: Ledger, repo: Repo)
    requires Valid(l, repo)
    ensures l.schemaOk && l.deploys != []
    ensures Distinct(Aggregates(l.deploys))
    ensures forall i :: 0 <= i < |l.deploys| ==> EntrySound(l.deploys[i]) && GitEntrySound(l.deploys[i], repo.head)
    ensures forall i :: 1 <= i < |l.deploys| ==> Before(l.deploys[i - 1].at, l.deploys[i].at)
    ensures forall i :: 1 <= i < |l.deploys| ==> ChainLink(l.deploys[i - 1].commit, l.deploys[i].commit)
  {
    hide Before, EntrySound, GitEntrySound, ChainLink, Distinct, Aggregates, Keys;
  }

  lemma PartsValid(l: Ledger, repo: Repo)
    requires l.schemaOk && l.deploys != []
    requires Distinct(Aggregates(l.deploys)) && Distinct(Keys(l.deploys))
    requires forall i :: 0 <= i < |l.deploys| ==> EntrySound(l.deploys[i]) && GitEntrySound(l.deploys[i], repo.head)
    requires forall i :: 1 <= i < |l.deploys| ==> Before(l.deploys[i - 1].at, l.deploys[i].at)
    requires forall i :: 1 <= i < |l.deploys| ==> ChainLink(l.deploys[i - 1].commit, l.deploys[i].commit)
    requires l.deploys[|l.deploys| - 1].recorded.aggregate == OfContent(repo.live.content)
    ensures Valid(l, repo)
  {
    hide Before, EntrySound, GitEntrySound, ChainLink, Distinct, Aggregates, Keys;
  }

  /** HEAD may have moved: what the newest entry descends into, every entry descends into. */
  lemma OldEntriesStaySound(l: Ledger, before: Repo, head: Commit, i: nat)
    requires Valid(l, before) && i < |l.deploys|
    requires ShaIsAncestor(l.deploys[|l.deploys| - 1].commit, Known(head))
    ensures GitEntrySound(l.deploys[i], head)
  {
    hide Valid, IsAncestor, EntrySound, Before;
    var n := |l.deploys| - 1;
    ValidEntry(l, before, i);
    if i < n {
      OrderSpreads(l, before, i, n);
      ShaAncestorTransitive(l.deploys[i].commit, l.deploys[n].commit, Known(head));
    }
  }

  lemma AppendKeepsValid(l: Ledger, before: Repo, a: Attempt)
    requires Valid(l, before) && l.deploys != [] && Committed(a.repo) && Extends(l, a)
    ensures Valid(Appended(l, a), a.repo)
  {
    hide Valid, EntrySound, GitEntrySound, Before, ShaIsAncestor, Distinct, Aggregates, Keys;
    var e := NewEntry(a);
    var next := Appended(l, a);
    ValidParts(l, before);
    NewEntrySound(a);
    NewDigestsDiffer(l.deploys, e);
    forall i | 0 <= i < |next.deploys|
      ensures EntrySound(next.deploys[i]) && GitEntrySound(next.deploys[i], a.repo.head)
    {
      if i < |l.deploys| { OldEntriesStaySound(l, before, a.repo.head, i); }
    }
    PartsValid(next, a.repo);
  }

  lemma ValidAppendExtends(l: Ledger, a: Attempt)
    requires l.deploys != [] && Committed(a.repo) && Valid(Appended(l, a), a.repo)
    ensures Extends(l, a) && !AlreadyRecorded(l, a.repo)
  {
    hide Valid, EntrySound, GitEntrySound, Before, ShaIsAncestor, PresentationDigest, Distinct, Aggregates, Keys;
    var next := Appended(l, a);
    var n := |l.deploys|;
    ValidEntry(next, a.repo, n);
    NewEntrySound(a);
    ValidLink(next, a.repo, n);
    forall i | 0 <= i < n
      ensures l.deploys[i].recorded.aggregate != OfContent(a.repo.live.content)
    {
      PairPrecedes(next, a.repo, i, n);
      assert next.deploys[i] == l.deploys[i];
      NewEntryDigest(a);
    }
  }

  lemma NewEntryDigest(a: Attempt)
    requires Committed(a.repo)
    ensures NewEntry(a).recorded.aggregate == OfContent(a.repo.live.content)
  {
  }

  lemma UnseenIsNotRecorded(l: Ledger, a: Attempt)
    requires l.deploys != [] && Extends(l, a)
    ensures !AlreadyRecorded(l, a.repo)
  {
    hide Before, ShaIsAncestor;
  }

  /**
   From a ledger that was valid, wherever HEAD moved meanwhile, `--record` succeeds exactly
   when the clone is full, the working catalog is committed, HEAD descends from the newest
   entry, the time is later and the document was never recorded.
   */
  lemma RecordSucceedsIff(l: Ledger, before: Repo, a: Attempt)
    requires Valid(l, before)
    ensures l.deploys != []
    ensures Recordable(l, a) <==> !a.repo.shallow && Committed(a.repo) && Extends(l, a)
  {
    hide Valid, Extends, AlreadyRecorded;
    ValidParts(l, before);
    if Committed(a.repo) && Extends(l, a) {
      AppendKeepsValid(l, before, a);
      UnseenIsNotRecorded(l, a);
    }
    if Committed(a.repo) && Valid(Appended(l, a), a.repo) { ValidAppendExtends(l, a); }
  }

  // ---- Runs -----------------------------------------------------------------

  function After(l: Ledger, attempts: seq<Attempt>): Ledger
    decreases |attempts|
  {
    if attempts == [] then l
    else
      var last := |attempts| - 1;
      var before := After(l, attempts[..last]);
      if Recordable(before, attempts[last]) then Appended(before, attempts[last]) else before
  }

  predicate Succeeds(l: Ledger, attempts: seq<Attempt>, i: nat)
    requires i < |attempts|
  {
    Recordable(After(l, attempts[..i]), attempts[i])
  }

  lemma AfterStep(l: Ledger, attempts: seq<Attempt>, i: nat)
    requires i < |attempts|
    ensures After(l, attempts[..i + 1]) ==
            if Succeeds(l, attempts, i) then Appended(After(l, attempts[..i]), attempts[i]) else After(l, attempts[..i])
  {
    hide Recordable, Appended;
    assert attempts[..i + 1][..i] == attempts[..i];
  }

  /** History only grows: nothing recorded is ever rewritten or dropped. */
  lemma {:induction false} RunOnlyAppends(l: Ledger, attempts: seq<Attempt>, i: nat, j: nat)
    requires i <= j <= |attempts|
    ensures After(l, attempts[..i]).deploys <= After(l, attempts[..j]).deploys
    ensures After(l, attempts[..i]).schemaOk == After(l, attempts[..j]).schemaOk
    decreases j - i
  {
    hide After, Succeeds;
    if i < j {
      RunOnlyAppends(l, attempts, i, j - 1);
      AfterStep(l, attempts, j - 1);
    }
  }

  lemma SuccessIsRecorded(l: Ledger, attempts: seq<Attempt>, i: nat, j: nat) returns (k: nat)
    requires i < j <= |attempts| && Succeeds(l, attempts, i)
    ensures k < |After(l, attempts[..j]).deploys|
    ensures After(l, attempts[..j]).deploys[k].recorded.aggregate == OfContent(attempts[i].repo.live.content)
  {
    hide After;
    k := |After(l, attempts[..i]).deploys|;
    AfterStep(l, attempts, i);
    NewEntryDigest(attempts[i]);
    RunOnlyAppends(l, attempts, i + 1, j);
  }

  /** In any run from any ledger a document is recorded once; going back to it is refused. */
  lemma EachDocumentRecordedOnce(l: Ledger, attempts: seq<Attempt>, i: nat, j: nat)
    requires i < j < |attempts|
    requires attempts[i].repo.live.content == attempts[j].repo.live.content
    ensures !(Succeeds(l, attempts, i) && Succeeds(l, attempts, j))
  {
    hide After, Valid, Extends;
    if Succeeds(l, attempts, i) && Succeeds(l, attempts, j) {
      var k := SuccessIsRecorded(l, attempts, i, j);
      RecordableIsUnseen(After(l, attempts[..j]), attempts[j], k);
    }
  }

  lemma RecordableIsUnseen(l: Ledger, a: Attempt, k: nat)
    requires k < |l.deploys| && Recordable(l, a)
    ensures l.deploys[k].recorded.aggregate != OfContent(a.repo.live.content)
  {
    hide Valid;
    ValidAppendExtends(l, a);
  }

  /** Every run keeps a chain a chain, whatever HEAD and the clock do between records. */
  lemma {:induction false} RunKeepsChain(l: Ledger, attempts: seq<Attempt>)
    requires IsChain(l.deploys)
    ensures IsChain(After(l, attempts).deploys) && l.deploys <= After(l, attempts).deploys
    decreases |attempts|
  {
    hide IsChain, Recordable, Appended, Valid;
    if attempts != [] {
      var last := |attempts| - 1;
      RunKeepsChain(l, attempts[..last]);
      var before := After(l, attempts[..last]);
      if Recordable(before, attempts[last]) { RecordedIsChain(before, attempts[last]); }
    }
  }

  lemma RecordedIsChain(l: Ledger, a: Attempt)
    requires Recordable(l, a)
    ensures IsChain(Appended(l, a).deploys) && l.deploys <= Appended(l, a).deploys
  {
    hide Valid, IsChain;
    ValidLedgerIsChain(Appended(l, a), a.repo);
  }
}
