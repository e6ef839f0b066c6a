/**
 Git history as scripts/presentation-ledger.ts reads it: commits, their parents, and
 the catalog file each one carries.

 A commit is its own name: the sha determines the whole history below it, so commits
 are compared as values and no history has a cycle.
 */
module CommitGraph {
  import opened Texts
  import opened Catalog

  /** The committed bytes; `document` is None when they do not parse. */
  datatype CatalogFile = CatalogFile(document: Option<Document>, formatting: int)

  datatype Commit = Commit(parents: seq<Commit>, catalog: Option<CatalogFile>, message: int)

  /** The catalog as of a commit; absent and unparseable alike are None. */
  function DocumentAt(c: Commit): Option<Document> {
    if c.catalog.None? then None else c.catalog.value.document
  }

  /** `git merge-base --is-ancestor a b`: reachable from `b` by parents, `b` itself included. */
  predicate IsAncestor(a: Commit, b: Commit)
    decreases b
  {
    a == b || exists i :: 0 <= i < |b.parents| && IsAncestor(a, b.parents[i])
  }

  lemma {:induction false} AncestorTransitive(a: Commit, b: Commit, c: Commit)
    requires IsAncestor(a, b) && IsAncestor(b, c)
    ensures IsAncestor(a, c)
    decreases c
  {
    if b != c {
      var i :| 0 <= i < |c.parents| && IsAncestor(b, c.parents[i]);
      AncestorTransitive(a, b, c.parents[i]);
    }
  }

  /** Each next commit is among the parents of the one before. */
  ghost predicate Descends(path: seq<Commit>) {
    path != [] && forall i :: 0 <= i < |path| - 1 ==> path[i + 1] in path[i].parents
  }

  ghost predicate LeadsTo(path: seq<Commit>, b: Commit, a: Commit) {
    Descends(path) && path[0] == b && path[|path| - 1] == a
  }

  /** Ancestry is reachability by parents, any of them, across merges too. */
  lemma AncestorIffPath(a: Commit, b: Commit)
    ensures IsAncestor(a, b) <==> exists path :: LeadsTo(path, b, a)
  {
    if IsAncestor(a, b) {
      var path := PathOfAncestor(a, b);
    }
    if path :| LeadsTo(path, b, a) { AncestorByPath(path); }
  }

  lemma {:induction false} PathOfAncestor(a: Commit, b: Commit) returns (path: seq<Commit>)
    requires IsAncestor(a, b)
    ensures LeadsTo(path, b, a)
    decreases b
  {
    if a == b {
      path := [b];
    } else {
      var i :| 0 <= i < |b.parents| && IsAncestor(a, b.parents[i]);
      var rest := PathOfAncestor(a, b.parents[i]);
      path := [b] + rest;
      PathCons(b, rest, b.parents[i], a);
    }
  }

  lemma PathCons(b: Commit, rest: seq<Commit>, parent: Commit, a: Commit)
    requires LeadsTo(rest, parent, a) && parent in b.parents
    ensures LeadsTo([b] + rest, b, a)
  {
    hide IsAncestor;
    var path := [b] + rest;
    assert forall k :: 0 <= k < |rest| ==> path[k + 1] == rest[k];
    forall i | 0 <= i < |path| - 1 ensures path[i + 1] in path[i].parents {
      if i > 0 { assert rest[i - 1 + 1] in rest[i - 1].parents; }
    }
  }

  lemma {:induction false} AncestorByPath(path: seq<Commit>)
    requires Descends(path)
    ensures IsAncestor(path[|path| - 1], path[0])
    decreases |path|
  {
    if |path| > 1 {
      var rest := path[1..];
      assert forall k :: 0 <= k < |rest| ==> rest[k] == path[k + 1];
      AncestorByPath(rest);
      assert path[1] in path[0].parents;
    }
  }

  /** Every parent, whichever of a merge's, is an ancestor, and so is all that it descends from. */
  lemma ParentIsAncestor(c: Commit, i: nat, a: Commit)
    requires i < |c.parents|
    ensures IsAncestor(c.parents[i], c)
    ensures IsAncestor(a, c.parents[i]) ==> IsAncestor(a, c)
  {
  }

  function Size(c: Commit): nat {
    1 + TotalSize(c.parents)
  }

  function TotalSize(cs: seq<Commit>): nat {
    if cs == [] then 0 else Size(cs[0]) + TotalSize(cs[1..])
  }

  lemma {:induction false} ParentIsSmaller(cs: seq<Commit>, i: nat)
    requires i < |cs|
    ensures Size(cs[i]) <= TotalSize(cs)
    decreases |cs|
  {
    if i > 0 { ParentIsSmaller(cs[1..], i - 1); }
  }

  lemma {:induction false} AncestorIsSmaller(a: Commit, b: Commit)
    requires IsAncestor(a, b)
    ensures a == b || Size(a) < Size(b)
    decreases b
  {
    if a != b {
      var i :| 0 <= i < |b.parents| && IsAncestor(a, b.parents[i]);
      AncestorIsSmaller(a, b.parents[i]);
      ParentIsSmaller(b.parents, i);
    }
  }

  /** Ancestry is a partial order. */
  lemma AncestorAntisymmetric(a: Commit, b: Commit)
    requires IsAncestor(a, b) && IsAncestor(b, a)
    ensures a == b
  {
    AncestorIsSmaller(a, b);
    AncestorIsSmaller(b, a);
  }

  // ---- Linear history -------------------------------------------------------

  predicate Linear(c: Commit) {
    c.parents == [] || (|c.parents| == 1 && Linear(c.parents[0]))
  }

  /** A linear history, oldest first. */
  function History(c: Commit): (h: seq<Commit>)
    requires Linear(c)
    ensures h != [] && h[|h| - 1] == c
  {
    if c.parents == [] then [c] else History(c.parents[0]) + [c]
  }

  /** The commit changed the catalog's bytes, or added or removed the file. */
  predicate Touches(c: Commit) {
    c.catalog != if c.parents == [] then None else c.parents[0].catalog
  }

  /** `git rev-list HEAD -- <catalog>` on a linear history: newest first. */
  function TouchingCommits(c: Commit): seq<Commit>
    requires Linear(c)
  {
    (if Touches(c) then [c] else []) + (if c.parents == [] then [] else TouchingCommits(c.parents[0]))
  }

  lemma {:induction false} HistorySteps(head: Commit, k: nat)
    requires Linear(head) && k < |History(head)|
    ensures Linear(History(head)[k]) && History(History(head)[k]) == History(head)[..k + 1]
    decreases head
  {
    var h := History(head);
    if k == |h| - 1 {
      assert h[..k + 1] == h;
    } else {
      var p := head.parents[0];
      HistorySteps(p, k);
      assert h[..k + 1] == History(p)[..k + 1];
    }
  }

  /** Earlier in a linear history is an ancestor. */
  lemma {:induction false} EarlierIsAncestor(head: Commit, j: nat, k: nat)
    requires Linear(head) && j <= k < |History(head)|
    ensures IsAncestor(History(head)[j], History(head)[k])
    decreases k - j
  {
    if j < k {
      EarlierIsAncestor(head, j, k - 1);
      HistorySteps(head, k);
      HistorySteps(head, k - 1);
      var c := History(head)[k];
      assert History(c) == History(head)[..k + 1];
      assert c.parents[0] == History(head)[k - 1] by {
        assert History(c) == History(c.parents[0]) + [c];
        assert History(c)[k - 1] == c.parents[0];
      }
      AncestorTransitive(History(head)[j], c.parents[0], c);
    }
  }

  /** Every ancestor of a linear head stands in its history. */
  lemma {:induction false} AncestorInHistory(a: Commit, head: Commit) returns (k: nat)
    requires Linear(head) && IsAncestor(a, head)
    ensures k < |History(head)| && History(head)[k] == a
    decreases head
  {
    if a == head {
      k := |History(head)| - 1;
    } else {
      k := AncestorInHistory(a, head.parents[0]);
    }
  }

  /** The commit that gave position `p` its catalog. */
  lemma {:induction false} LatestTouch(head: Commit, p: nat) returns (q: nat)
    requires Linear(head) && p < |History(head)| && DocumentAt(History(head)[p]).Some?
    ensures q <= p && Touches(History(head)[q]) && History(head)[q].catalog == History(head)[p].catalog
    ensures forall r :: q < r <= p ==> !Touches(History(head)[r])
    decreases p
  {
    var c := History(head)[p];
    HistorySteps(head, p);
    if Touches(c) {
      q := p;
    } else {
      assert c.parents != [];
      assert History(c) == History(c.parents[0]) + [c];
      assert History(c)[p - 1] == c.parents[0] == History(head)[p - 1];
      q := LatestTouch(head, p - 1);
    }
  }

  lemma {:induction false} TouchingIsListed(head: Commit, k: nat)
    requires Linear(head) && k < |History(head)|
    ensures Touches(History(head)[k]) <==> History(head)[k] in TouchingCommits(head)
    decreases head
  {
    var h := History(head);
    if k == |h| - 1 {
      if head.parents != [] { NotBelow(head); }
    } else {
      TouchingIsListed(head.parents[0], k);
      NotBelow(head);
      DifferentFromHead(head, k);
    }
  }

  lemma {:induction false} TouchingInHistory(head: Commit, c: Commit)
    requires Linear(head) && c in TouchingCommits(head)
    ensures IsAncestor(c, head) && Touches(c)
    decreases head
  {
    if !(Touches(head) && c == head) {
      TouchingInHistory(head.parents[0], c);
    }
  }

  lemma NotBelow(head: Commit)
    requires Linear(head) && head.parents != []
    ensures head !in TouchingCommits(head.parents[0])
  {
    ParentIsSmaller(head.parents, 0);
    if head in TouchingCommits(head.parents[0]) {
      TouchingInHistory(head.parents[0], head);
      AncestorIsSmaller(head, head.parents[0]);
    }
  }

  lemma DifferentFromHead(head: Commit, k: nat)
    requires Linear(head) && k < |History(head)| - 1
    ensures History(head)[k] != head
  {
    EarlierIsAncestor(head.parents[0], k, |History(head)| - 2);
    AncestorIsSmaller(History(head)[k], head.parents[0]);
    ParentIsSmaller(head.parents, 0);
  }

  /** A linear history holds a commit once. */
  lemma HistoryDistinct(head: Commit, j: nat, k: nat)
    requires Linear(head) && j < k < |History(head)|
    ensures History(head)[j] != History(head)[k]
  {
    HistorySteps(head, k);
    var c := History(head)[k];
    assert History(c)[j] == History(head)[j];
    DifferentFromHead(c, j);
  }

  /** On a linear history ancestry is order of position. */
  lemma AncestorIffEarlier(head: Commit, j: nat, k: nat)
    requires Linear(head) && j < |History(head)| && k < |History(head)|
    ensures IsAncestor(History(head)[j], History(head)[k]) <==> j <= k
  {
    hide History, IsAncestor;
    if j <= k {
      EarlierIsAncestor(head, j, k);
    } else {
      EarlierIsAncestor(head, k, j);
      HistoryDistinct(head, k, j);
      if IsAncestor(History(head)[j], History(head)[k]) {
        AncestorAntisymmetric(History(head)[j], History(head)[k]);
      }
    }
  }

  /** What a commit's catalog was changed from: its predecessor's, or none at the root. */
  function CatalogBefore(head: Commit, k: nat): Option<CatalogFile>
    requires Linear(head) && k < |History(head)|
  {
    if k == 0 then None else History(head)[k - 1].catalog
  }

  /** The listed commits are exactly those of the history whose catalog differs from the one before. */
  lemma {:induction false} TouchingIff(head: Commit, c: Commit)
    requires Linear(head)
    ensures c in TouchingCommits(head) <==>
            exists k :: 0 <= k < |History(head)| && History(head)[k] == c && c.catalog != CatalogBefore(head, k)
  {
    var h := History(head);
    if c in TouchingCommits(head) {
      TouchingInHistory(head, c);
      var k := AncestorInHistory(c, head);
      ParentBefore(head, k);
    }
    if k :| 0 <= k < |h| && h[k] == c && c.catalog != CatalogBefore(head, k) {
      ParentBefore(head, k);
      TouchingIsListed(head, k);
    }
  }

  lemma ParentBefore(head: Commit, k: nat)
    requires Linear(head) && k < |History(head)|
    ensures Linear(History(head)[k])
    ensures k == 0 ==> History(head)[k].parents == []
    ensures k > 0 ==> History(head)[k].parents == [History(head)[k - 1]]
  {
    HistorySteps(head, k);
    var c := History(head)[k];
    assert History(c) == History(head)[..k + 1];
    if c.parents != [] {
      assert History(c) == History(c.parents[0]) + [c];
      assert History(c)[k - 1] == c.parents[0];
    }
  }

  /** They are listed newest first. */
  lemma {:induction false} TouchingNewestFirst(head: Commit, i: nat, j: nat)
    requires Linear(head) && i < j < |TouchingCommits(head)|
    ensures IsAncestor(TouchingCommits(head)[j], TouchingCommits(head)[i])
    ensures TouchingCommits(head)[j] != TouchingCommits(head)[i]
    decreases head
  {
    hide TouchingCommits, IsAncestor, Touches;
    var listed := TouchingCommits(head);
    ListedStep(head);
    var below := TouchingCommits(head.parents[0]);
    if Touches(head) && i == 0 {
      assert listed[j] == below[j - 1];
      ListedBelow(head, listed[j]);
    } else if Touches(head) {
      assert listed[i] == below[i - 1] && listed[j] == below[j - 1];
      TouchingNewestFirst(head.parents[0], i - 1, j - 1);
    } else {
      TouchingNewestFirst(head.parents[0], i, j);
    }
  }

  lemma ListedStep(head: Commit)
    requires Linear(head) && |TouchingCommits(head)| > 1
    ensures head.parents != []
    ensures TouchingCommits(head) ==
            (if Touches(head) then [head] else []) + TouchingCommits(head.parents[0])
  {
  }

  lemma ListedBelow(head: Commit, c: Commit)
    requires Linear(head) && head.parents != [] && c in TouchingCommits(head.parents[0])
    ensures IsAncestor(c, head) && c != head
  {
    TouchingInHistory(head.parents[0], c);
    NotBelow(head);
    ParentIsAncestor(head, 0, c);
  }
}
