/**
 What a valid ledger says, spelled out: numbers for instants, paths of parents for
 ancestry, the documents themselves for what the entries carry.
 */
module LedgerMeaning {
  import opened Texts
  import opened Catalog
  import opened CommitGraph
  import opened DeployLedger
  import opened Reseat

  /** `git merge-base --is-ancestor`: some path of parents leads from the later commit to the earlier. */
  ghost predicate ReachedFrom(later: Commit, earlier: Commit) {
    exists path :: LeadsTo(path, later, earlier)
  }

  /** The commit shows what the entry stores: nothing for an empty slot, else the document's content. */
  predicate Shows(c: Commit, slot: Slot) {
    match slot
    case NoField => false
    case Null => c.catalog == None || c.catalog.value.document == None
    case Holds(d) =>
      c.catalog.Some? && c.catalog.value.document.Some? && c.catalog.value.document.value.content == d.content
  }

  /** The entry names a commit of the branch, what that commit shows, and that content's digests. */
  ghost predicate EntryReads(e: Entry, head: Commit) {
    && e.commit.Known? && e.at.isoShaped && ReachedFrom(head, e.commit.commit) && Shows(e.commit.commit, e.document)
    && var content := if e.document.Holds? then e.document.document.content else Content(0, None, map[]);
       e.recorded == PresentationDigest(content) && e.configVersion == content.configVersion
  }

  ghost predicate Follows(a: Entry, b: Entry) {
    && a.at.instant.Some? && b.at.instant.Some? && a.at.instant.value < b.at.instant.value
    && a.commit.Known? && b.commit.Known? && ReachedFrom(b.commit.commit, a.commit.commit)
  }

  /** Validation accepts exactly the ledgers that say this. */
  lemma ValidLedgerIff(l: Ledger, repo: Repo)
    ensures Valid(l, repo) <==>
            l.schemaOk && l.deploys != [] &&
            (forall i :: 0 <= i < |l.deploys| ==> EntryReads(l.deploys[i], repo.head)) &&
            (forall i :: 1 <= i < |l.deploys| ==> Follows(l.deploys[i - 1], l.deploys[i])) &&
            (forall i, j :: 0 <= i < j < |l.deploys| ==>
               l.deploys[i].recorded.aggregate != l.deploys[j].recorded.aggregate) &&
            l.deploys[|l.deploys| - 1].recorded.aggregate == OfContent(repo.live.content)
  {
    hide PresentationDigest, IsAncestor, ReachedFrom, EntryReads, Follows, EntrySound, GitEntrySound, Before, ChainLink;
    DistinctIff(l.deploys);
    forall i | 0 <= i < |l.deploys|
      ensures EntrySound(l.deploys[i]) && GitEntrySound(l.deploys[i], repo.head) <==>
              EntryReads(l.deploys[i], repo.head)
    {
      EntryIff(l.deploys[i], repo.head);
    }
    forall i | 1 <= i < |l.deploys| && EntryReads(l.deploys[i - 1], repo.head) && EntryReads(l.deploys[i], repo.head)
      ensures Before(l.deploys[i - 1].at, l.deploys[i].at) &&
              ChainLink(l.deploys[i - 1].commit, l.deploys[i].commit) <==>
              Follows(l.deploys[i - 1], l.deploys[i])
    {
      LinkIff(l.deploys[i - 1], l.deploys[i], repo.head);
    }
  }

  lemma DistinctIff(deploys: seq<Entry>)
    ensures Distinct(Aggregates(deploys)) && Distinct(Keys(deploys)) <==>
            forall i, j :: 0 <= i < j < |deploys| ==> deploys[i].recorded.aggregate != deploys[j].recorded.aggregate
  {
    var digests := Aggregates(deploys);
    if Distinct(digests) {
      forall i, j | 0 <= i < j < |deploys|
        ensures deploys[i].recorded.aggregate != deploys[j].recorded.aggregate
      {
        assert digests[i] != digests[j];
      }
    }
  }

  lemma ReachedIff(later: Commit, earlier: Commit)
    ensures ReachedFrom(later, earlier) <==> IsAncestor(earlier, later)
  {
    hide LeadsTo, IsAncestor;
    AncestorIffPath(earlier, later);
  }

  lemma EntryIff(e: Entry, head: Commit)
    ensures EntrySound(e) && GitEntrySound(e, head) <==> EntryReads(e, head)
  {
    hide PresentationDigest, IsAncestor, ReachedFrom;
    if e.commit.Known? { ReachedIff(head, e.commit.commit); }
  }

  lemma LinkIff(a: Entry, b: Entry, head: Commit)
    requires EntryReads(a, head) && EntryReads(b, head)
    ensures Before(a.at, b.at) && ChainLink(a.commit, b.commit) <==> Follows(a, b)
  {
    hide PresentationDigest, IsAncestor, ReachedFrom;
    ReachedIff(b.commit.commit, a.commit.commit);
  }

  /** Two entries share a key when they share commit and digest. */
  lemma KeysDistinctIff(deploys: seq<Entry>)
    ensures Distinct(Keys(deploys)) <==>
            forall i, j :: 0 <= i < j < |deploys| ==>
              deploys[i].commit != deploys[j].commit ||
              deploys[i].recorded.aggregate != deploys[j].recorded.aggregate
  {
    var keys := Keys(deploys);
    if Distinct(keys) {
      forall i, j | 0 <= i < j < |deploys|
        ensures deploys[i].commit != deploys[j].commit ||
                deploys[i].recorded.aggregate != deploys[j].recorded.aggregate
      {
        assert keys[i] != keys[j];
      }
    }
  }

  // ---- Repairs ----------------------------------------------------------------

  /** An entry dangles when its commit has forty hex digits and no path from HEAD leads to it. */
  lemma DanglingIff(e: Entry, head: Commit)
    ensures Dangling(e, head) <==>
            e.commit.Unknown? || (e.commit.Known? && !ReachedFrom(head, e.commit.commit))
  {
    hide ReachedFrom, IsAncestor;
    if e.commit.Known? { ReachedIff(head, e.commit.commit); }
  }

  /** A commit carries exactly the stored document, unhashed keys and key order included, or, for none, none. */
  lemma CarriesIff(c: Commit, slot: Slot)
    ensures Carries(c, slot) <==>
            match slot
            case NoField => false
            case Null => c.catalog == None || c.catalog.value.document == None
            case Holds(d) => c.catalog.Some? && c.catalog.value.document == Some(d)
  {
  }

  /** A malformed commit is never re-pointed, and neither is one that HEAD still reaches. */
  lemma ReseatLeavesAlone(e: Entry, head: Commit, candidates: seq<Commit>)
    requires e.commit.Malformed? || (e.commit.Known? && ReachedFrom(head, e.commit.commit))
    ensures Reseated(e, head, candidates) == e
  {
    hide ReachedFrom, FirstCarrier;
    DanglingIff(e, head);
  }
}
