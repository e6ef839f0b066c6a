/**
 The deploy ledger of scripts/presentation-ledger.ts: validation, recording, and
 what a valid ledger means.

 A working catalog that exists and parses is a premise; everything else a ledger file
 can hold (malformed shas, foreign digests, missing documents, unparseable times) is
 data.
 */
module DeployLedger {
  import opened Texts
  import opened Catalog
  import opened CommitGraph

  /** An entry's `commit` text: not forty hex digits, naming nothing here, or a commit. */
  datatype Sha = Malformed(text: int) | Unknown(text: int) | Known(commit: Commit)

  /** `at`: whether it has the ISO shape, and what `Date.parse` makes of it (None is NaN). */
  datatype Stamp = Stamp(isoShaped: bool, instant: Option<int>)

  datatype Slot = NoField | Null | Holds(document: Document)

  datatype Entry = Entry(
    at: Stamp, commit: Sha, configVersion: Option<int>, recorded: DigestSet, deploymentUrl: Option<int>, document: Slot)

  datatype Ledger = Ledger(schemaOk: bool, deploys: seq<Entry>)

  datatype Repo = Repo(head: Commit, live: Document, shallow: bool)

  datatype Complaint =
    WrongSchema | NoEntries | NotASha | NotAnInstant | NoDocument | WrongDigest | WrongVersion | WrongSections |
    SharedDigest | SharedKey | NotLater | NotCurrent | NotOnBranch | NotAuthentic | NotAChain

  datatype Fault = Fault(index: Option<nat>, complaint: Complaint)

  datatype Outcome = Checked(faults: seq<Fault>) | Refused | Threw

  // ---- What the layers ask for ----------------------------------------------

  function ContentOf(slot: Slot): Content
    requires slot != NoField
  {
    if slot == Null then EMPTY_CONTENT else slot.document.content
  }

  /** Everything recorded about the stored document recomputes from it. */
  predicate EntrySound(e: Entry) {
    !e.commit.Malformed? && e.at.isoShaped && e.document != NoField &&
    e.recorded == PresentationDigest(ContentOf(e.document)) && e.configVersion == ContentOf(e.document).configVersion
  }

  predicate Before(a: Stamp, b: Stamp) {
    a.instant.Some? && b.instant.Some? && a.instant.value < b.instant.value
  }

  predicate ShaIsAncestor(a: Sha, b: Sha) {
    a.Known? && b.Known? && IsAncestor(a.commit, b.commit)
  }

  predicate Distinct<T(==)>(xs: seq<T>) {
    forall i, j :: 0 <= i < j < |xs| ==> xs[i] != xs[j]
  }

  function Aggregates(deploys: seq<Entry>): seq<Digest> {
    seq(|deploys|, i requires 0 <= i < |deploys| => deploys[i].recorded.aggregate)
  }

  function Keys(deploys: seq<Entry>): seq<(Sha, Digest)> {
    seq(|deploys|, i requires 0 <= i < |deploys| => (deploys[i].commit, deploys[i].recorded.aggregate))
  }

  predicate OfflineSound(l: Ledger, live: Content) {
    l.schemaOk && l.deploys != [] &&
    (forall i :: 0 <= i < |l.deploys| ==> EntrySound(l.deploys[i])) &&
    Distinct(Aggregates(l.deploys)) && Distinct(Keys(l.deploys)) &&
    (forall i :: 1 <= i < |l.deploys| ==> Before(l.deploys[i - 1].at, l.deploys[i].at)) &&
    l.deploys[|l.deploys| - 1].recorded.aggregate == OfContent(live)
  }

  /** The stored document and the one at a commit agree: absent together, or equal in digest. */
  predicate SameDocument(at: Option<Document>, stored: Slot) {
    if at.None? then stored == Null else stored.Holds? && stored.document.content == at.value.content
  }

  predicate GitEntrySound(e: Entry, head: Commit) {
    e.commit.Malformed? ||
    (ShaIsAncestor(e.commit, Known(head)) && SameDocument(DocumentAt(e.commit.commit), e.document))
  }

  predicate ChainLink(a: Sha, b: Sha) {
    a.Malformed? || b.Malformed? || ShaIsAncestor(a, b)
  }

  predicate GitChainSound(l: Ledger) {
    forall i :: 1 <= i < |l.deploys| ==> ChainLink(l.deploys[i - 1].commit, l.deploys[i].commit)
  }

  predicate Valid(l: Ledger, repo: Repo) {
    OfflineSound(l, repo.live.content) && GitChainSound(l) &&
    forall i :: 0 <= i < |l.deploys| ==> GitEntrySound(l.deploys[i], repo.head)
  }

  /** A missing `document` field makes the git layer digest `undefined`. */
  predicate Throws(e: Entry, head: Commit) {
    ShaIsAncestor(e.commit, Known(head)) && DocumentAt(e.commit.commit).Some? && e.document == NoField
  }

  lemma ThrowsIsUnsound(e: Entry, head: Commit)
    requires Throws(e, head)
    ensures !GitEntrySound(e, head)
  {
  }

  // ---- The validators -------------------------------------------------------

  method CompareDigests(recorded: DigestSet, actual: DigestSet, index: nat) returns (faults: seq<Fault>)
    ensures faults == [] <==> recorded == actual.(sections := recorded.sections)
    ensures forall f :: f in faults ==> f.index == Some(index)
  {
    faults := [];
    if recorded.aggregate != actual.aggregate { faults := faults + [Fault(Some(index), WrongDigest)]; }
    if recorded.l0 != actual.l0 { faults := faults + [Fault(Some(index), WrongDigest)]; }
    if recorded.l1 != actual.l1 { faults := faults + [Fault(Some(index), WrongDigest)]; }
    if recorded.l2 != actual.l2 { faults := faults + [Fault(Some(index), WrongDigest)]; }
  }

  method FaultsForEntry(e: Entry, index: nat) returns (faults: seq<Fault>)
    ensures faults == [] <==> EntrySound(e)
    ensures forall f :: f in faults ==> f.index == Some(index)
  {
    hide PresentationDigest;
    faults := [];
    if e.commit.Malformed? {
      return [Fault(Some(index), NotASha)];
    }
    if !e.at.isoShaped { faults := faults + [Fault(Some(index), NotAnInstant)]; }
    if e.document == NoField {
      faults := faults + [Fault(Some(index), NoDocument)];
      return;
    }
    if e.document == Null {
      var empty := CompareDigests(e.recorded, PresentationDigest(EMPTY_CONTENT), index);
      faults := faults + empty;
      if e.configVersion != None { faults := faults + [Fault(Some(index), WrongVersion)]; }
      if |e.recorded.sections| != 0 { faults := faults + [Fault(Some(index), WrongSections)]; }
      EmptyHasNoSections();
      return;
    }
    var content := e.document.document.content;
    var more := CompareDigests(e.recorded, PresentationDigest(content), index);
    faults := faults + more;
    if e.configVersion != content.configVersion { faults := faults + [Fault(Some(index), WrongVersion)]; }
    if e.recorded.sections != PresentationDigest(content).sections {
      faults := faults + [Fault(Some(index), WrongSections)];
    }
  }

  lemma EmptyHasNoSections()
    ensures PresentationDigest(EMPTY_CONTENT).sections == []
  {
    NothingPresent(DECLARED);
  }

  lemma {:induction false} NothingPresent(names: seq<SectionName>)
    ensures Present(EMPTY_CONTENT, names) == []
  {
    if names != [] { NothingPresent(names[1..]); }
  }

  /** `new Set(xs).size === xs.length`. */
  method SetKeepsLength<T(==)>(xs: seq<T>) returns (distinct: bool)
    ensures distinct <==> Distinct(xs)
  {
    var unique: set<T> := {};
    for n := 0 to |xs|
      invariant forall x :: x in unique <==> x in xs[..n]
      invariant |unique| <= n
      invariant |unique| == n <==> Distinct(xs[..n])
    {
      assert xs[..n + 1] == xs[..n] + [xs[n]];
      assert Distinct(xs[..n + 1]) <==> Distinct(xs[..n]) && xs[n] !in xs[..n];
      unique := unique + {xs[n]};
    }
    assert xs[..|xs|] == xs;
    distinct := |unique| == |xs|;
  }

  method ValidateOffline(l: Ledger, live: Content) returns (faults: seq<Fault>)
    ensures faults == [] <==> OfflineSound(l, live)
  {
    hide EntrySound, Before, Distinct, Aggregates, Keys, SectionsAt, Present;
    faults := [];
    if !l.schemaOk { faults := [Fault(None, WrongSchema)]; }
    if |l.deploys| == 0 {
      return faults + [Fault(None, NoEntries)];
    }
    for i := 0 to |l.deploys|
      invariant faults == [] <==> l.schemaOk && forall j :: 0 <= j < i ==> EntrySound(l.deploys[j])
    {
      var more := FaultsForEntry(l.deploys[i], i);
      faults := faults + more;
    }
    var digests := SetKeepsLength(Aggregates(l.deploys));
    if !digests { faults := faults + [Fault(None, SharedDigest)]; }
    var keys := SetKeepsLength(Keys(l.deploys));
    if !keys { faults := faults + [Fault(None, SharedKey)]; }
    ghost var entries := faults == [];
    for i := 1 to |l.deploys|
      invariant faults == [] <==> entries && forall j :: 1 <= j < i ==> Before(l.deploys[j - 1].at, l.deploys[j].at)
    {
      if !Before(l.deploys[i - 1].at, l.deploys[i].at) { faults := faults + [Fault(Some(i), NotLater)]; }
    }
    var newest := l.deploys[|l.deploys| - 1];
    if newest.recorded.aggregate != PresentationDigest(live).aggregate { faults := faults + [Fault(None, NotCurrent)]; }
  }

  method GitFaultsForEntry(e: Entry, index: nat, head: Commit) returns (faults: seq<Fault>, threw: bool)
    ensures threw <==> Throws(e, head)
    ensures !threw ==> (faults == [] <==> GitEntrySound(e, head))
    ensures forall f :: f in faults ==> f.index == Some(index)
  {
    faults, threw := [], false;
    if e.commit.Malformed? { return; }
    if !ShaIsAncestor(e.commit, Known(head)) {
      return [Fault(Some(index), NotOnBranch)], false;
    }
    var atCommit := DocumentAt(e.commit.commit);
    if atCommit == None {
      if e.document != Null { faults := [Fault(Some(index), NotAuthentic)]; }
      return;
    }
    if e.document == Null {
      return [Fault(Some(index), NotAuthentic)], false;
    }
    if e.document == NoField {
      return [], true;
    }
    var stored := PresentationDigest(e.document.document.content).aggregate;
    var actual := PresentationDigest(atCommit.value.content).aggregate;
    if stored != actual { faults := [Fault(Some(index), NotAuthentic)]; }
  }

  method GitFaultsForChain(l: Ledger) returns (faults: seq<Fault>)
    ensures faults == [] <==> GitChainSound(l)
  {
    faults := [];
    if |l.deploys| == 0 { return; }
    for i := 1 to |l.deploys|
      invariant faults == [] <==> forall j :: 1 <= j < i ==> ChainLink(l.deploys[j - 1].commit, l.deploys[j].commit)
    {
      var prev, cur := l.deploys[i - 1].commit, l.deploys[i].commit;
      if !prev.Malformed? && !cur.Malformed? && !ShaIsAncestor(prev, cur) {
        faults := faults + [Fault(Some(i), NotAChain)];
      }
    }
  }

  method Validate(l: Ledger, repo: Repo) returns (o: Outcome)
    ensures o == Refused <==> repo.shallow
    ensures o == Threw <==> !repo.shallow && exists i :: 0 <= i < |l.deploys| && Throws(l.deploys[i], repo.head)
    ensures o == Checked([]) <==> !repo.shallow && Valid(l, repo)
  {
    hide OfflineSound, GitEntrySound, Throws, ChainLink;
    if repo.shallow { return Refused; }
    var faults := ValidateOffline(l, repo.live.content);
    if |l.deploys| == 0 { return Checked(faults); }
    ghost var offline := faults == [];
    for i := 0 to |l.deploys|
      invariant forall j :: 0 <= j < i ==> !Throws(l.deploys[j], repo.head)
      invariant faults == [] <==> offline && forall j :: 0 <= j < i ==> GitEntrySound(l.deploys[j], repo.head)
    {
      var more, threw := GitFaultsForEntry(l.deploys[i], i, repo.head);
      if threw {
        ThrowsIsUnsound(l.deploys[i], repo.head);
        return Threw;
      }
      faults := faults + more;
    }
    var chain := GitFaultsForChain(l);
    o := Checked(faults + chain);
  }

  // ---- Recording ------------------------------------------------------------

  datatype Attempt = Attempt(at: Stamp, deploymentUrl: Option<int>, repo: Repo)

  /** The committed catalog is the working one, as far as its digest tells. */
  predicate Committed(repo: Repo) {
    DocumentAt(repo.head).Some? && DocumentAt(repo.head).value.content == repo.live.content
  }

  predicate AlreadyRecorded(l: Ledger, repo: Repo) {
    exists i :: 0 <= i < |l.deploys| && l.deploys[i].commit == Known(repo.head) &&
                l.deploys[i].recorded.aggregate == OfContent(repo.live.content)
  }

  function NewEntry(a: Attempt): Entry
    requires Committed(a.repo)
  {
    var live := a.repo.live.content;
    Entry(a.at, Known(a.repo.head), live.configVersion, PresentationDigest(live), a.deploymentUrl,
          Holds(DocumentAt(a.repo.head).value))
  }

  function Appended(l: Ledger, a: Attempt): Ledger
    requires Committed(a.repo)
  {
    l.(deploys := l.deploys + [NewEntry(a)])
  }

  predicate Recordable(l: Ledger, a: Attempt) {
    Committed(a.repo) && !AlreadyRecorded(l, a.repo) && !a.repo.shallow && Valid(Appended(l, a), a.repo)
  }

  /** The ledger file. */
  class Store {
    var ledger: Ledger

    constructor (l: Ledger)
      ensures ledger == l
    {
      ledger := l;
    }

    /** `--record`; an exception leaves the process with exit code 1. */
    method Record(a: Attempt) returns (code: nat)
      modifies this
      ensures code == 0 <==> Recordable(old(ledger), a)
      ensures code == 2 <==> !Committed(a.repo) || AlreadyRecorded(old(ledger), a.repo)
      ensures code == 3 <==> Committed(a.repo) && !AlreadyRecorded(old(ledger), a.repo) && a.repo.shallow
      ensures code <= 3
      ensures code == 0 ==> ledger == Appended(old(ledger), a) && Valid(ledger, a.repo)
      ensures code != 0 ==> ledger == old(ledger)
    {
      var repo := a.repo;
      var d := PresentationDigest(repo.live.content);
      var committed := DocumentAt(repo.head);
      if committed == None { return 2; }
      if PresentationDigest(committed.value.content).aggregate != d.aggregate { return 2; }
      for i := 0 to |ledger.deploys|
        invariant ledger == old(ledger)
        invariant forall j :: 0 <= j < i ==>
                    !(ledger.deploys[j].commit == Known(repo.head) &&
                      ledger.deploys[j].recorded.aggregate == d.aggregate)
      {
        var e := ledger.deploys[i];
        if e.commit == Known(repo.head) && e.recorded.aggregate == d.aggregate { return 2; }
      }
      var entry := Entry(a.at, Known(repo.head), repo.live.content.configVersion, d,
                         a.deploymentUrl, Holds(committed.value));
      var next := ledger.(deploys := ledger.deploys + [entry]);
      var outcome := Validate(next, repo);
      if outcome == Refused { return 3; }
      if outcome == Threw || outcome.faults != [] { return 1; }
      ledger := next;
      return 0;
    }
  }

  // ---- Restoring ------------------------------------------------------------

  /** `corpus.findIndex`: the first entry carrying the digest. */
  method FindDigest(deploys: seq<Entry>, digest: Digest) returns (found: Option<nat>)
    ensures found.None? ==> digest !in Aggregates(deploys)
    ensures found.Some? ==> found.value < |deploys| && deploys[found.value].recorded.aggregate == digest
    ensures found.Some? ==> digest !in Aggregates(deploys[..found.value])
  {
    for i := 0 to |deploys|
      invariant forall j :: 0 <= j < i ==> deploys[j].recorded.aggregate != digest
    {
      if deploys[i].recorded.aggregate == digest { return Some(i); }
    }
    return None;
  }

  /** The document a digest restores: where entries are sound, one with exactly that digest. */
  method RestoreByDigest(deploys: seq<Entry>, digest: Digest) returns (restored: Option<Document>)
    ensures restored.None? <==> digest !in Aggregates(deploys)
    ensures (forall i :: 0 <= i < |deploys| ==> EntrySound(deploys[i])) && restored.Some? ==>
              PresentationDigest(restored.value.content).aggregate == digest
    ensures restored.Some? ==> exists i ::
              0 <= i < |deploys| && deploys[i].recorded.aggregate == digest && digest !in Aggregates(deploys[..i]) &&
              restored.value == if deploys[i].document.Holds? then deploys[i].document.document else EMPTY_DOCUMENT
  {
    var found := FindDigest(deploys, digest);
    if found == None { return None; }
    var hit := deploys[found.value];
    assert Aggregates(deploys)[found.value] == digest;
    restored := Some(if hit.document.Holds? then hit.document.document else EMPTY_DOCUMENT);
  }

  /** The deploy before the one a digest names; with distinct digests, of whichever entry carries it. */
  method PreviousDeploy(deploys: seq<Entry>, digest: Digest) returns (previous: Option<Entry>)
    ensures Distinct(Aggregates(deploys)) ==>
            forall i :: 0 <= i < |deploys| && deploys[i].recorded.aggregate == digest ==>
              previous == if i == 0 then None else Some(deploys[i - 1])
    ensures digest !in Aggregates(deploys) ==> previous == None
  {
    hide *;
    var found := FindDigest(deploys, digest);
    FoundIsRecorded(deploys, digest, found);
    if Distinct(Aggregates(deploys)) { DigestNamesOneEntry(deploys, digest, found); }
    if found == None || found.value == 0 { return None; }
    return Some(deploys[found.value - 1]);
  }

  lemma FoundIsRecorded(deploys: seq<Entry>, digest: Digest, found: Option<nat>)
    requires found.Some? ==> found.value < |deploys| && deploys[found.value].recorded.aggregate == digest
    ensures found.Some? ==> digest in Aggregates(deploys)
  {
    if found.Some? { assert Aggregates(deploys)[found.value] == digest; }
  }

  lemma ValidDigestsDiffer(l: Ledger, repo: Repo)
    requires Valid(l, repo)
    ensures Distinct(Aggregates(l.deploys))
  {
    hide EntrySound, GitEntrySound, GitChainSound, Distinct, Aggregates, Keys, Before;
  }

  lemma DigestNamesOneEntry(deploys: seq<Entry>, digest: Digest, found: Option<nat>)
    requires Distinct(Aggregates(deploys))
    requires found.None? ==> digest !in Aggregates(deploys)
    requires found.Some? ==> found.value < |deploys| && deploys[found.value].recorded.aggregate == digest
    ensures forall i :: 0 <= i < |deploys| && deploys[i].recorded.aggregate == digest ==> found == Some(i)
  {
    var digests := Aggregates(deploys);
    forall i | 0 <= i < |deploys| && deploys[i].recorded.aggregate == digest
      ensures found == Some(i)
    {
      assert digests[i] == digest;
      if found.Some? { assert digests[found.value] == digest; }
    }
  }
}
