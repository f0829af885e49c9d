/** The commit-range gate (`tools/public_history_delta.py`): which findings a commit adds, and
    why scanning only new commits misses none. Paths, blobs and scanner values are numbers; a
    blob's number stands for its content. */
module DeltaGate {
  import opened Basics

  datatype Key = Match(category: nat, detector: nat, value: nat) | PathMatch(category: nat, detector: nat)

  /** `content` gives the blocking matches in a blob with their counts, `path` the blocking
      findings on a path whose content may be unknown. */
  datatype Scanner = Scanner(content: nat -> map<Key, nat>, path: (nat, Option<nat>) -> set<Key>)

  /** A tree entry. A gitlink names a commit of another repository and has no blob to read. */
  datatype Entry = File(mode: nat, blob: nat) | Gitlink(target: nat)

  type Tree = map<nat, Entry>

  /** `message` holds the blocking matches in the message without its exempt trailers. */
  datatype Commit = Commit(parents: seq<nat>, tree: Tree, message: map<Key, nat>)

  type Repo = map<nat, Commit>

  /** A finite commit DAG. Commits are numbered parents first, as every such DAG allows. */
  ghost predicate Dag(repo: Repo) {
    forall c, i {:trigger repo[c].parents[i]} | c in repo && 0 <= i < |repo[c].parents| ::
      repo[c].parents[i] in repo && repo[c].parents[i] < c
  }

  ghost predicate Counting(s: Scanner) {
    forall b, k {:trigger s.content(b)[k]} | k in s.content(b) :: s.content(b)[k] > 0
  }

  datatype Finding =
    | InMessage(key: Key, commit: nat, count: nat)
    | InBlob(key: Key, commit: nat, path: nat, count: nat)
    | InPath(key: Key, commit: nat, path: nat)

  // ---------------------------------------------------------------- what a commit introduces

  function Blob(e: Entry): Option<nat> {
    if e.Gitlink? then None else Some(e.blob)
  }

  function ContentKeys(s: Scanner, tree: Tree, path: nat): map<Key, nat> {
    if path in tree && tree[path].File? then s.content(tree[path].blob) else map[]
  }

  ghost function PathKeys(s: Scanner, tree: Tree, path: nat): set<Key> {
    if path in tree then s.path(path, Blob(tree[path])) else {}
  }

  /** The trees that commit `c` is compared with; a root is compared with the empty tree. */
  function ParentTrees(repo: Repo, c: nat): seq<Tree>
    requires Dag(repo) && c in repo
  {
    if repo[c].parents == [] then [map[]]
    else seq(|repo[c].parents|, i requires 0 <= i < |repo[c].parents| => repo[repo[c].parents[i]].tree)
  }

  /** Old side, if there is one, and new side of a path that the two trees do not share. */
  datatype Change = Change(before: Option<Entry>, after: Entry)

  function EntryAt(tree: Tree, path: nat): Option<Entry> {
    if path in tree then Some(tree[path]) else None
  }

  /** The raw tree difference without deletions. */
  function Changes(before: Tree, after: Tree): map<nat, Change> {
    map path | path in after && EntryAt(before, path) != Some(after[path]) :: Change(EntryAt(before, path), after[path])
  }

  /** The path findings the gate grants to an old version: it reads the old content only when
      the new version is a file. */
  function GrantedPathKeys(s: Scanner, path: nat, before: Option<Entry>, after: Entry): set<Key> {
    if before.None? then {}
    else s.path(path, if after.Gitlink? then None else Blob(before.value))
  }

  /** Commit `c` introduces `f`: the finding is there, and no tree it is compared with has it. */
  ghost predicate Introduced(repo: Repo, s: Scanner, c: nat, f: Finding)
    requires Dag(repo) && c in repo
  {
    && f.commit == c
    && match f
       case InMessage(k, _, n) => k in repo[c].message && repo[c].message[k] == n
       case InBlob(k, _, p, n) =>
         && k in ContentKeys(s, repo[c].tree, p) && ContentKeys(s, repo[c].tree, p)[k] == n
         && NoneHas(s, ParentTrees(repo, c), p, k)
       case InPath(k, _, p) =>
         && k in PathKeys(s, repo[c].tree, p)
         && NoneGrants(s, ParentTrees(repo, c), p, repo[c].tree, k)
  }

  ghost predicate NoneHas(s: Scanner, trees: seq<Tree>, path: nat, k: Key) {
    forall i {:trigger trees[i]} | 0 <= i < |trees| :: k !in ContentKeys(s, trees[i], path)
  }

  /** In every old tree the path has another entry, if any, without this path finding. */
  ghost predicate NoneGrants(s: Scanner, trees: seq<Tree>, path: nat, tree: Tree, k: Key)
    requires path in tree
  {
    forall i {:trigger trees[i]} | 0 <= i < |trees| ::
      EntryAt(trees[i], path) != Some(tree[path]) && k !in GrantedPathKeys(s, path, EntryAt(trees[i], path), tree[path])
  }

  /** A path that differs from every old tree, is now a file, and was a gitlink in one of them:
      reading its old content fails. */
  ghost predicate Unreadable(repo: Repo, c: nat, path: nat)
    requires Dag(repo) && c in repo
  {
    && path in repo[c].tree && repo[c].tree[path].File?
    && (forall i {:trigger ParentTrees(repo, c)[i]} | 0 <= i < |ParentTrees(repo, c)| ::
          EntryAt(ParentTrees(repo, c)[i], path) != Some(repo[c].tree[path]))
    && (exists i {:trigger ParentTrees(repo, c)[i]} :: 0 <= i < |ParentTrees(repo, c)| &&
          EntryAt(ParentTrees(repo, c)[i], path).Some? && EntryAt(ParentTrees(repo, c)[i], path).value.Gitlink?)
  }

  // ---------------------------------------------------------------- commit_findings

  datatype Result<T> = Ok(value: T) | Failed

  lemma NoRepeatsAppend<T>(s: seq<T>, x: T)
    requires NoRepeats(s) && x !in s
    ensures NoRepeats(s + [x])
  {
  }

  lemma NoRepeatsConcat<T>(s: seq<T>, t: seq<T>)
    requires NoRepeats(s) && NoRepeats(t) && forall x | x in s :: x !in t
    ensures NoRepeats(s + t)
  {
    forall i, j | 0 <= i < j < |s + t| ensures (s + t)[i] != (s + t)[j] {
      assert (s + t)[j] == if j < |s| then s[j] else t[j - |s|];
      assert (s + t)[i] == if i < |s| then s[i] else t[i - |s|];
      assert (i < |s| ==> s[i] in s) && (j >= |s| ==> t[j - |s|] in t);
    }
  }

  /** The paths that changed against every old tree. */
  method CommonPaths(perParent: seq<map<nat, Change>>) returns (paths: set<nat>)
    requires perParent != []
    ensures forall p :: p in paths <==> forall i {:trigger perParent[i]} | 0 <= i < |perParent| :: p in perParent[i]
  {
    paths := perParent[0].Keys;
    for i := 1 to |perParent|
      invariant forall p :: p in paths <==> forall j {:trigger perParent[j]} | 0 <= j < i :: p in perParent[j]
    {
      paths := paths * perParent[i].Keys;
    }
  }

  /** What the old versions of one path already had, or a failure to read one of them. */
  method OldKeys(s: Scanner, perParent: seq<map<nat, Change>>, path: nat, after: Entry)
    returns (r: Result<(set<Key>, set<Key>)>)
    requires forall i {:trigger perParent[i]} | 0 <= i < |perParent| :: path in perParent[i]
    ensures r.Failed? <==> after.File? && exists i {:trigger perParent[i]} ::
              0 <= i < |perParent| && perParent[i][path].before.Some? && perParent[i][path].before.value.Gitlink?
    ensures r.Ok? && after.File? ==> forall k :: k in r.value.0 <==> exists i {:trigger perParent[i]} ::
              0 <= i < |perParent| && perParent[i][path].before.Some? && perParent[i][path].before.value.File?
              && k in s.content(perParent[i][path].before.value.blob)
    ensures r.Ok? ==> forall k :: k in r.value.1 <==> exists i {:trigger perParent[i]} ::
              0 <= i < |perParent| && k in GrantedPathKeys(s, path, perParent[i][path].before, after)
  {
    var contents, paths: set<Key> := {}, {};
    for i := 0 to |perParent|
      invariant after.File? ==> forall j {:trigger perParent[j]} | 0 <= j < i :: perParent[j][path].before.Some? ==> perParent[j][path].before.value.File?
      invariant after.File? ==> forall k :: k in contents <==> exists j {:trigger perParent[j]} ::
                  0 <= j < i && perParent[j][path].before.Some? && perParent[j][path].before.value.File?
                  && k in s.content(perParent[j][path].before.value.blob)
      invariant forall k :: k in paths <==> exists j {:trigger perParent[j]} ::
                  0 <= j < i && k in GrantedPathKeys(s, path, perParent[j][path].before, after)
    {
      var before := perParent[i][path].before;
      if before.Some? && after.File? {
        if before.value.Gitlink? { return Failed; }
        contents := contents + s.content(before.value.blob).Keys;
      }
      paths := paths + GrantedPathKeys(s, path, before, after);
    }
    r := Ok((contents, paths));
  }

  method ListMessage(c: nat, keys: map<Key, nat>) returns (findings: seq<Finding>)
    ensures NoRepeats(findings)
    ensures forall f :: f in findings <==> f.InMessage? && f.commit == c && f.key in keys && keys[f.key] == f.count
  {
    findings := [];
    var left := keys.Keys;
    while left != {}
      invariant left <= keys.Keys && NoRepeats(findings)
      invariant forall f :: f in findings <==> f.InMessage? && f.commit == c && f.key in keys.Keys - left && keys[f.key] == f.count
      decreases |left|
    {
      var k :| k in left;
      left := left - {k};
      NoRepeatsAppend(findings, InMessage(k, c, keys[k]));
      findings := findings + [InMessage(k, c, keys[k])];
    }
  }

  method ListBlob(c: nat, path: nat, keys: map<Key, nat>, before: set<Key>) returns (findings: seq<Finding>)
    ensures NoRepeats(findings)
    ensures forall f :: f in findings <==> f.InBlob? && f.commit == c && f.path == path && f.key in keys.Keys - before && keys[f.key] == f.count
  {
    findings := [];
    var left := keys.Keys - before;
    while left != {}
      invariant left <= keys.Keys - before && NoRepeats(findings)
      invariant forall f :: f in findings <==>
                  f.InBlob? && f.commit == c && f.path == path && f.key in keys.Keys - before - left && keys[f.key] == f.count
      decreases |left|
    {
      var k :| k in left;
      left := left - {k};
      NoRepeatsAppend(findings, InBlob(k, c, path, keys[k]));
      findings := findings + [InBlob(k, c, path, keys[k])];
    }
  }

  method ListPath(c: nat, path: nat, keys: set<Key>) returns (findings: seq<Finding>)
    ensures NoRepeats(findings)
    ensures forall f :: f in findings <==> f.InPath? && f.commit == c && f.path == path && f.key in keys
  {
    findings := [];
    var left := keys;
    while left != {}
      invariant left <= keys && NoRepeats(findings)
      invariant forall f :: f in findings <==> f.InPath? && f.commit == c && f.path == path && f.key in keys - left
      decreases |left|
    {
      var k :| k in left;
      left := left - {k};
      NoRepeatsAppend(findings, InPath(k, c, path));
      findings := findings + [InPath(k, c, path)];
    }
  }

  function PathOf(f: Finding): Option<nat> {
    match f
    case InMessage(_, _, _) => None
    case InBlob(_, _, p, _) => Some(p)
    case InPath(_, _, p) => Some(p)
  }

  /** The differences of a commit's tree from each tree it is compared with. */
  ghost predicate Differences(perParent: seq<map<nat, Change>>, repo: Repo, c: nat)
    requires Dag(repo) && c in repo
  {
    && |perParent| == |ParentTrees(repo, c)|
    && forall i {:trigger perParent[i]} {:trigger ParentTrees(repo, c)[i]} | 0 <= i < |perParent| ::
         perParent[i] == Changes(ParentTrees(repo, c)[i], repo[c].tree)
  }

  lemma IntroducedOnCommonPath(repo: Repo, s: Scanner, c: nat, f: Finding, perParent: seq<map<nat, Change>>)
    requires Dag(repo) && c in repo && Differences(perParent, repo, c)
    requires Introduced(repo, s, c, f) && PathOf(f).Some?
    ensures forall i {:trigger perParent[i]} | 0 <= i < |perParent| :: PathOf(f).value in perParent[i]
  {
    forall i {:trigger perParent[i]} | 0 <= i < |perParent| ensures PathOf(f).value in perParent[i] {
      var tree := ParentTrees(repo, c)[i];
    }
  }

  method PathFindings(repo: Repo, s: Scanner, c: nat, perParent: seq<map<nat, Change>>, path: nat)
    returns (r: Result<seq<Finding>>)
    requires Dag(repo) && c in repo && Differences(perParent, repo, c) && perParent != []
    requires forall i {:trigger perParent[i]} | 0 <= i < |perParent| :: path in perParent[i]
    ensures r.Failed? <==> Unreadable(repo, c, path)
    ensures r.Ok? ==> NoRepeats(r.value) && forall f :: f in r.value <==> PathOf(f) == Some(path) && Introduced(repo, s, c, f)
  {
    var after := perParent[0][path].after;
    ghost var trees := ParentTrees(repo, c);
    assert after == repo[c].tree[path];
    assert forall i | 0 <= i < |perParent| :: perParent[i][path] == Change(EntryAt(trees[i], path), after);
    var keys := OldKeys(s, perParent, path, after);
    if keys.Failed? { return Failed; }
    var blobs := ListBlob(c, path, if after.Gitlink? then map[] else s.content(after.blob), keys.value.0);
    var paths := ListPath(c, path, s.path(path, Blob(after)) - keys.value.1);
    forall k | after.File? ensures k !in keys.value.0 <==> NoneHas(s, trees, path, k) {
      if k !in keys.value.0 {
        forall i | 0 <= i < |trees| ensures k !in ContentKeys(s, trees[i], path) {
          assert perParent[i][path].before == EntryAt(trees[i], path);
        }
      }
    }
    forall k ensures k !in keys.value.1 <==> NoneGrants(s, trees, path, repo[c].tree, k) {
      if k !in keys.value.1 {
        forall i | 0 <= i < |trees|
          ensures EntryAt(trees[i], path) != Some(after) && k !in GrantedPathKeys(s, path, EntryAt(trees[i], path), after)
        {
          assert perParent[i][path].before == EntryAt(trees[i], path);
        }
      }
    }
    NoRepeatsConcat(blobs, paths);
    r := Ok(blobs + paths);
  }

  method CommitFindings(repo: Repo, s: Scanner, c: nat) returns (r: Result<seq<Finding>>)
    requires Dag(repo) && c in repo
    ensures r.Failed? <==> exists path :: Unreadable(repo, c, path)
    ensures r.Ok? ==> NoRepeats(r.value) && forall f :: f in r.value <==> Introduced(repo, s, c, f)
  {
    var findings := ListMessage(c, repo[c].message);
    var trees := ParentTrees(repo, c);
    var perParent := seq(|trees|, i requires 0 <= i < |trees| => Changes(trees[i], repo[c].tree));
    var paths := CommonPaths(perParent);
    var left := paths;
    while left != {}
      invariant left <= paths && NoRepeats(findings)
      invariant forall p | p in paths - left :: !Unreadable(repo, c, p)
      invariant forall f :: f in findings <==> Introduced(repo, s, c, f) && (PathOf(f).Some? ==> PathOf(f).value in paths - left)
      decreases |left|
    {
      var path :| path in left;
      left := left - {path};
      var more := PathFindings(repo, s, c, perParent, path);
      if more.Failed? { return Failed; }
      NoRepeatsConcat(findings, more.value);
      findings := findings + more.value;
    }
    forall f | Introduced(repo, s, c, f) ensures f in findings {
      if PathOf(f).Some? { IntroducedOnCommonPath(repo, s, c, f, perParent); }
    }
    forall path | Unreadable(repo, c, path) ensures path in paths {
      forall i {:trigger perParent[i]} | 0 <= i < |perParent| ensures path in perParent[i] {
        assert EntryAt(ParentTrees(repo, c)[i], path) != Some(repo[c].tree[path]);
      }
    }
    r := Ok(findings);
  }

  // ---------------------------------------------------------------- the range

  ghost predicate Reaches(repo: Repo, from: nat, to: nat)
    requires Dag(repo) && from in repo
    decreases from
  {
    from == to || exists i {:trigger repo[from].parents[i]} :: 0 <= i < |repo[from].parents| && Reaches(repo, repo[from].parents[i], to)
  }

  lemma {:induction false} ReachesTransitive(repo: Repo, a: nat, b: nat, c: nat)
    requires Dag(repo) && a in repo && b in repo && Reaches(repo, a, b) && Reaches(repo, b, c)
    ensures Reaches(repo, a, c)
    decreases a
  {
    if a != b {
      var i :| 0 <= i < |repo[a].parents| && Reaches(repo, repo[a].parents[i], b);
      ReachesTransitive(repo, repo[a].parents[i], b, c);
    }
  }

  lemma ReachesParent(repo: Repo, a: nat, c: nat, i: nat)
    requires Dag(repo) && a in repo && c in repo && Reaches(repo, a, c) && i < |repo[c].parents|
    ensures Reaches(repo, a, repo[c].parents[i]) && Reaches(repo, c, repo[c].parents[i])
  {
    var q := repo[c].parents[i];
    assert Reaches(repo, q, q);
    ReachesTransitive(repo, a, c, q);
  }

  /** Where the candidate, the trusted base and the reviewed cutover stand. */
  datatype Range = Range(candidate: nat, base: nat, cutover: nat)

  ghost predicate InRepo(repo: Repo, g: Range) {
    g.candidate in repo && g.base in repo && g.cutover in repo
  }

  ghost predicate Trusted(repo: Repo, g: Range, c: nat)
    requires Dag(repo) && InRepo(repo, g)
  {
    Reaches(repo, g.base, c) || Reaches(repo, g.cutover, c)
  }

  ghost predicate New(repo: Repo, g: Range, c: nat)
    requires Dag(repo) && InRepo(repo, g)
  {
    c in repo && Reaches(repo, g.candidate, c) && !Trusted(repo, g, c)
  }

  /** What the revision walk lists: every new commit once, in some order. */
  ghost predicate Lists(commits: seq<nat>, repo: Repo, g: Range)
    requires Dag(repo) && InRepo(repo, g)
  {
    NoRepeats(commits) && forall c :: c in commits <==> New(repo, g, c)
  }

  datatype Outcome =
    | Report(newCommits: nat, newBlockingFindings: nat, findings: seq<Finding>)
    | ShallowRepository | CandidateMissing | TrustedBaseMissing | CutoverMissing | EmptyRange | GitFailed

  function CountOf(f: Finding): nat {
    if f.InPath? then 1 else f.count
  }

  ghost function TotalCount(findings: seq<Finding>): nat {
    if findings == [] then 0 else CountOf(findings[0]) + TotalCount(findings[1..])
  }

  lemma {:induction false} TotalCountPositive(findings: seq<Finding>)
    requires forall f | f in findings :: CountOf(f) > 0
    ensures TotalCount(findings) == 0 <==> findings == []
  {
    if findings != [] { assert findings[0] in findings; }
  }

  /** Every finding that a new commit introduces. */
  ghost predicate Complete(findings: seq<Finding>, repo: Repo, s: Scanner, g: Range)
    requires Dag(repo) && InRepo(repo, g)
  {
    forall f :: f in findings <==> New(repo, g, f.commit) && Introduced(repo, s, f.commit, f)
  }

  ghost predicate SomeUnreadable(repo: Repo, g: Range)
    requires Dag(repo) && InRepo(repo, g)
  {
    exists c, path :: New(repo, g, c) && Unreadable(repo, c, path)
  }

  method AllFindings(repo: Repo, s: Scanner, ghost g: Range, commits: seq<nat>) returns (r: Result<seq<Finding>>)
    requires Dag(repo) && InRepo(repo, g) && Lists(commits, repo, g)
    ensures r.Failed? <==> SomeUnreadable(repo, g)
    ensures r.Ok? ==> NoRepeats(r.value) && Complete(r.value, repo, s, g)
  {
    var findings: seq<Finding> := [];
    for i := 0 to |commits|
      invariant NoRepeats(findings)
      invariant forall j {:trigger commits[j]} | 0 <= j < i :: commits[j] in repo && forall path :: !Unreadable(repo, commits[j], path)
      invariant forall f: Finding :: f in findings <==> f.commit in repo && f.commit in commits[..i] && Introduced(repo, s, f.commit, f)
    {
      var c := commits[i];
      assert New(repo, g, c);
      assert commits[..i + 1] == commits[..i] + [c] && c !in commits[..i];
      var more := CommitFindings(repo, s, c);
      if more.Failed? { return Failed; }
      NoRepeatsConcat(findings, more.value);
      findings := findings + more.value;
    }
    assert commits[..|commits|] == commits;
    forall c | New(repo, g, c) ensures forall path :: !Unreadable(repo, c, path) {
      var j :| 0 <= j < |commits| && commits[j] == c;
    }
    r := Ok(findings);
  }

  method RunGate(repo: Repo, s: Scanner, shallow: bool, g: Range, commits: seq<nat>) returns (r: Outcome)
    requires Dag(repo) && Counting(s) && forall c, k | c in repo && k in repo[c].message :: repo[c].message[k] > 0
    requires InRepo(repo, g) ==> Lists(commits, repo, g)
    ensures r.Report? <==> !shallow && InRepo(repo, g) && g.candidate !in {g.base, g.cutover} && commits != [] && !SomeUnreadable(repo, g)
    ensures r.Report? ==> NoRepeats(r.findings) && Complete(r.findings, repo, s, g)
    ensures r.Report? ==> r.newCommits == |commits| && r.newBlockingFindings == TotalCount(r.findings)
    ensures r.Report? ==> (r.newBlockingFindings == 0 <==> r.findings == [])
    ensures r.GitFailed? ==> InRepo(repo, g) && SomeUnreadable(repo, g)
  {
    if shallow { return ShallowRepository; }
    if g.candidate !in repo { return CandidateMissing; }
    if g.base !in repo { return TrustedBaseMissing; }
    if g.cutover !in repo { return CutoverMissing; }
    if g.candidate == g.base || g.candidate == g.cutover { return EmptyRange; }
    if commits == [] { return EmptyRange; }
    var findings := AllFindings(repo, s, g, commits);
    if findings.Failed? { return GitFailed; }
    var total: nat := 0;
    for i := 0 to |findings.value|
      invariant total + TotalCount(findings.value[i..]) == TotalCount(findings.value)
    {
      total := total + CountOf(findings.value[i]);
      assert findings.value[i..][1..] == findings.value[i + 1..];
    }
    forall f | f in findings.value ensures CountOf(f) > 0 {
      assert Introduced(repo, s, f.commit, f);
    }
    TotalCountPositive(findings.value);
    r := Report(|commits|, total, findings.value);
  }

  // ---------------------------------------------------------------- completeness

  /** Where a match at `path` in a new commit comes from: a commit it reaches with the same
      match at the same path, either trusted or a new commit that introduces it. */
  lemma {:induction false} ContentHasAnOrigin(repo: Repo, s: Scanner, g: Range, c: nat, path: nat, k: Key) returns (origin: nat)
    requires Dag(repo) && InRepo(repo, g) && New(repo, g, c) && k in ContentKeys(s, repo[c].tree, path)
    ensures origin in repo && Reaches(repo, c, origin) && k in ContentKeys(s, repo[origin].tree, path)
    ensures Trusted(repo, g, origin)
         || (New(repo, g, origin) && Introduced(repo, s, origin, InBlob(k, origin, path, ContentKeys(s, repo[origin].tree, path)[k])))
    decreases c
  {
    var trees := ParentTrees(repo, c);
    if NoneHas(s, trees, path, k) {
      origin := c;
    } else {
      var i :| 0 <= i < |trees| && k in ContentKeys(s, trees[i], path);
      var q := repo[c].parents[i];
      ReachesParent(repo, g.candidate, c, i);
      if Trusted(repo, g, q) {
        origin := q;
      } else {
        origin := ContentHasAnOrigin(repo, s, g, q, path, k);
        ReachesTransitive(repo, c, q, origin);
      }
    }
  }

  /** A gate without findings: whatever a new commit holds, even if a later one removes it, was
      at the same path in an ancestor of it that the trusted base or the cutover reaches. */
  lemma CleanGateAddsNoContent(repo: Repo, s: Scanner, g: Range, findings: seq<Finding>, c: nat, path: nat, k: Key)
    requires Dag(repo) && InRepo(repo, g) && Complete(findings, repo, s, g) && findings == []
    requires New(repo, g, c) && k in ContentKeys(s, repo[c].tree, path)
    ensures exists a :: a in repo && Reaches(repo, c, a) && Trusted(repo, g, a) && k in ContentKeys(s, repo[a].tree, path)
  {
    var origin := ContentHasAnOrigin(repo, s, g, c, path, k);
  }

  /** A gitlink takes the place of another entry, and the gate sees the old path finding only
      because it does not look at the old content. */
  ghost predicate MaskedByGitlink(repo: Repo, s: Scanner, c: nat, path: nat, k: Key)
    requires Dag(repo) && c in repo
  {
    && path in repo[c].tree && repo[c].tree[path].Gitlink? && k in PathKeys(s, repo[c].tree, path)
    && (exists i {:trigger ParentTrees(repo, c)[i]} :: 0 <= i < |ParentTrees(repo, c)| && path in ParentTrees(repo, c)[i])
    && (forall i {:trigger ParentTrees(repo, c)[i]} | 0 <= i < |ParentTrees(repo, c)| :: k !in PathKeys(s, ParentTrees(repo, c)[i], path))
  }

  /** A path finding that no parent has is introduced exactly when no gitlink masks it. */
  lemma NewPathFindingIsReported(repo: Repo, s: Scanner, c: nat, path: nat, k: Key)
    requires Dag(repo) && c in repo && k in PathKeys(s, repo[c].tree, path)
    requires forall i {:trigger ParentTrees(repo, c)[i]} | 0 <= i < |ParentTrees(repo, c)| :: k !in PathKeys(s, ParentTrees(repo, c)[i], path)
    ensures Introduced(repo, s, c, InPath(k, c, path)) <==> !MaskedByGitlink(repo, s, c, path, k)
  {
    var trees, tree := ParentTrees(repo, c), repo[c].tree;
    if tree[path].File? || forall i {:trigger trees[i]} | 0 <= i < |trees| :: path !in trees[i] {
      forall i {:trigger trees[i]} | 0 <= i < |trees|
        ensures EntryAt(trees[i], path) != Some(tree[path]) && k !in GrantedPathKeys(s, path, EntryAt(trees[i], path), tree[path])
      {
        assert k !in PathKeys(s, trees[i], path);
      }
    } else {
      var i :| 0 <= i < |trees| && path in trees[i];
      assert k in GrantedPathKeys(s, path, EntryAt(trees[i], path), tree[path]);
    }
  }

  /** The same for path findings, where a masking gitlink is the one other origin. */
  lemma {:induction false} PathFindingHasAnOrigin(repo: Repo, s: Scanner, g: Range, c: nat, path: nat, k: Key) returns (origin: nat)
    requires Dag(repo) && InRepo(repo, g) && New(repo, g, c) && k in PathKeys(s, repo[c].tree, path)
    ensures origin in repo && Reaches(repo, c, origin) && k in PathKeys(s, repo[origin].tree, path)
    ensures Trusted(repo, g, origin)
         || (New(repo, g, origin) && Introduced(repo, s, origin, InPath(k, origin, path)))
         || (New(repo, g, origin) && MaskedByGitlink(repo, s, origin, path, k))
    decreases c
  {
    var trees := ParentTrees(repo, c);
    if forall i {:trigger trees[i]} | 0 <= i < |trees| :: k !in PathKeys(s, trees[i], path) {
      NewPathFindingIsReported(repo, s, c, path, k);
      origin := c;
    } else {
      var i :| 0 <= i < |trees| && k in PathKeys(s, trees[i], path);
      var q := repo[c].parents[i];
      ReachesParent(repo, g.candidate, c, i);
      if Trusted(repo, g, q) {
        origin := q;
      } else {
        origin := PathFindingHasAnOrigin(repo, s, g, q, path, k);
        ReachesTransitive(repo, c, q, origin);
      }
    }
  }

  /** A TypeScript file, exempt by its content, turns into a gitlink with the same media suffix:
      the path now blocks, no commit before it did, and the gate stays silent. */
  lemma MaskedGitlinkExample() returns (repo: Repo, s: Scanner, g: Range)
    ensures Dag(repo) && InRepo(repo, g) && New(repo, g, 1)
    ensures 0 in repo && exists k :: k in PathKeys(s, repo[1].tree, 0) && k !in PathKeys(s, repo[0].tree, 0)
    ensures Complete([], repo, s, g)
  {
    var k := PathMatch(0, 0);
    s := Scanner(_ => map[], (_, content: Option<nat>) => if content.None? then {k} else {});
    repo := map[0 := Commit([], map[0 := File(0, 0)], map[]), 1 := Commit([0], map[0 := Gitlink(7)], map[])];
    g := Range(1, 0, 0);
    assert repo[1].parents[0] == 0;
    assert Reaches(repo, 1, 1) && Reaches(repo, 0, 0) && !Reaches(repo, 0, 1);
    assert k in PathKeys(s, repo[1].tree, 0) && k !in PathKeys(s, repo[0].tree, 0);
    assert ParentTrees(repo, 1)[0] == repo[0].tree;
    assert GrantedPathKeys(s, 0, EntryAt(repo[0].tree, 0), repo[1].tree[0]) == {k};
  }
}
