/** An abstract file system: a map from paths (sequences of names) to the
    kind of entry found there, and the run-start sweep that empties the
    screenshot directory without removing it. */
module DirectoryTree {
  import opened Results

  datatype EntryKind = File | Directory

  type Path = seq<string>

  type Tree = map<Path, EntryKind>

  /** `p` lies strictly inside the directory `base`. */
  predicate Below(base: Path, p: Path) {
    |base| < |p| && p[..|base|] == base
  }

  /** Every entry below the top level sits in a directory that exists. */
  ghost predicate WellFormed(t: Tree) {
    forall p :: p in t && |p| > 1 ==> p[..|p| - 1] in t && t[p[..|p| - 1]] == Directory
  }

  /** The names `readdirSync(base)` lists. */
  function Entries(t: Tree, base: Path): set<string> {
    set p | p in t && |p| == |base| + 1 && p[..|base|] == base :: p[|base|]
  }

  /** The tree with everything strictly inside `base` removed. */
  function Emptied(t: Tree, base: Path): (r: Tree)
    ensures forall p :: p in r <==> p in t && !Below(base, p)
    ensures forall p :: p in r ==> r[p] == t[p]
  {
    map p | p in t && !Below(base, p) :: t[p]
  }

  /** In a well-formed tree every ancestor of an entry is a directory. */
  lemma {:induction false} AncestorIsDirectory(t: Tree, p: Path, k: nat)
    requires WellFormed(t) && p in t && 1 <= k < |p|
    ensures p[..k] in t && t[p[..k]] == Directory
    decreases |p| - k
  {
    var q := p[..|p| - 1];
    assert q in t && t[q] == Directory;
    if k < |q| {
      AncestorIsDirectory(t, q, k);
      assert q[..k] == p[..k];
    } else {
      assert q == p[..k];
    }
  }

  /** The entries inside `base + [e]`, and `base + [e]` itself, are exactly
      the entries inside `base` whose first name below `base` is `e`. */
  lemma UnderChild(base: Path, e: string, p: Path)
    ensures (p == base + [e] || Below(base + [e], p)) <==> (Below(base, p) && p[|base|] == e)
  {
    if Below(base, p) && p[|base|] == e {
      if |p| > |base| + 1 {
        assert p[..|base| + 1] == p[..|base|] + [p[|base|]];
      } else {
        assert p == p[..|base|] + [p[|base|]];
      }
    }
    if Below(base + [e], p) {
      assert p[..|base|] == (base + [e])[..|base|];
    }
  }

  /** `cur` is `t` with the subtrees of the listed names in `removed`
      swept away. */
  ghost predicate SweptOf(t: Tree, cur: Tree, base: Path, removed: set<string>) {
    && (forall p :: p in cur <==> p in t && !(Below(base, p) && p[|base|] in removed))
    && (forall p :: p in cur ==> cur[p] == t[p])
  }

  /** `fs.rmSync(child, { recursive: true })` for a directory and
      `fs.unlinkSync(child)` for a file. */
  function RemoveEntry(cur: Tree, child: Path): (r: Tree)
    requires child in cur
    ensures child !in r
    ensures forall p :: p in r ==> p in cur && r[p] == cur[p]
    ensures forall p :: p in cur && p != child && !Below(child, p) ==> p in r
    ensures cur[child] == Directory ==> forall p :: p in r ==> !Below(child, p)
    ensures cur[child] == File ==> r == cur - {child}
  {
    if cur[child] == Directory then map p | p in cur && !(p == child || Below(child, p)) :: cur[p]
    else cur - {child}
  }

  /** Removing one more listed entry extends the sweep by its name. */
  lemma RemoveEntrySweeps(t: Tree, cur: Tree, base: Path, removed: set<string>, e: string)
    requires WellFormed(t) && SweptOf(t, cur, base, removed)
    requires e in Entries(t, base) && e !in removed
    ensures base + [e] in cur
    ensures SweptOf(t, RemoveEntry(cur, base + [e]), base, removed + {e})
  {
    var child := base + [e];
    var q :| q in t && |q| == |base| + 1 && q[..|base|] == base && q[|base|] == e;
    assert q == child by {
      assert q == q[..|base|] + [q[|base|]];
    }
    assert Below(base, child) && child[|base|] == e;
    if t[child] == File {
      forall p | p in t && Below(child, p)
        ensures false
      {
        AncestorIsDirectory(t, p, |child|);
      }
    }
    forall p
      ensures (p == child || Below(child, p)) <==> (Below(base, p) && p[|base|] == e)
    {
      UnderChild(base, e, p);
    }
  }

  /** Every entry inside `base` lies below one of the names listed there. */
  lemma ListedCoverBelow(t: Tree, base: Path, p: Path)
    requires WellFormed(t) && p in t && Below(base, p)
    ensures p[|base|] in Entries(t, base)
  {
    var child := p[..|base| + 1];
    if |p| > |base| + 1 {
      AncestorIsDirectory(t, p, |base| + 1);
    } else {
      assert child == p;
    }
    assert child[..|base|] == base && child[|base|] == p[|base|];
  }

  /** The `onBegin` sweep of the screenshot base directory: when it exists,
      every entry listed in it is removed, a directory recursively and a
      file by unlinking; listing a path that is a file throws. */
  method ClearDirectory(t: Tree, base: Path) returns (r: Result<Tree>)
    requires WellFormed(t)
    ensures base !in t ==> r == Ok(t)
    ensures base in t && t[base] == File ==> r.Err?
    ensures base in t && t[base] == Directory ==>
      && r.Ok?
      && base in r.value && r.value[base] == Directory
      && (forall p :: p in r.value ==> !Below(base, p))
      && (forall p :: p in t && !Below(base, p) ==> p in r.value && r.value[p] == t[p])
      && (forall p :: p in r.value ==> p in t)
    ensures base in t && t[base] == Directory ==> r == Ok(Emptied(t, base))
  {
    if base !in t {
      return Ok(t);
    }
    if t[base] == File {
      return Err("ENOTDIR: not a directory, scandir");
    }
    var entries := Entries(t, base);
    ghost var removed: set<string> := {};
    var cur := t;
    while entries != {}
      invariant entries <= Entries(t, base) && removed == Entries(t, base) - entries
      invariant SweptOf(t, cur, base, removed)
      decreases entries
    {
      var e :| e in entries;
      RemoveEntrySweeps(t, cur, base, removed, e);
      cur := RemoveEntry(cur, base + [e]);
      entries := entries - {e};
      removed := removed + {e};
    }
    forall p | p in t && Below(base, p)
      ensures p[|base|] in removed
    {
      ListedCoverBelow(t, base, p);
    }
    assert cur == Emptied(t, base);
    r := Ok(cur);
  }

  /** Sweeping is idempotent: the swept tree has nothing below the base,
      so sweeping it again returns it unchanged, and an already empty
      directory is left as it is. */
  lemma EmptiedIdempotent(t: Tree, base: Path)
    ensures Emptied(Emptied(t, base), base) == Emptied(t, base)
    ensures (forall p :: p in t ==> !Below(base, p)) ==> Emptied(t, base) == t
  {
  }
}
