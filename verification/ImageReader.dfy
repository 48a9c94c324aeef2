/** Path lookup of fs/fs.c on the image that fs/fsformat.c has written. */
module ImageReader {
  import opened Options
  import opened DiskImage
  import opened ImageTree

  /** The place of the first entry called `name`, or the number of entries. */
  function FirstKid(kids: seq<Tree>, name: string): (i: nat)
    ensures i <= |kids| && (i < |kids| ==> kids[i].name == name) && forall j :: 0 <= j < i ==> kids[j].name != name
  {
    if kids == [] || kids[0].name == name then 0 else 1 + FirstKid(kids[1..], name)
  }

  /** The tree at the end of a path. */
  function FindTree(t: Tree, path: seq<string>): Option<Tree>
    decreases |path|
  {
    if path == [] then Some(t)
    else if t.RegFile? then None
    else
      var i := FirstKid(t.kids, path[0]);
      if i < |t.kids| then FindTree(t.kids[i], path[1..]) else None
  }

  lemma {:induction false} FirstKidAt(kids: seq<Tree>, name: string, i: nat)
    requires i <= |kids| && (i < |kids| ==> kids[i].name == name) && forall j :: 0 <= j < i ==> kids[j].name != name
    ensures FirstKid(kids, name) == i
  {
    var k := FirstKid(kids, name);
  }

  /** What dir_lookup reads at place `j` of a directory. */
  lemma EntryThere(d: Disk, dir: File, t: Tree, j: nat)
    requires t.Directory? && ReadsAs(d, dir, t)
    ensures j < |t.kids| ==> j / BLKFILES < dir.size / BLKSIZE
    ensures j / BLKFILES < dir.size / BLKSIZE ==>
      && Fetch(d, dir, j / BLKFILES).Some? && Fetch(d, dir, j / BLKFILES).value.Dir?
      && j % BLKFILES < |Fetch(d, dir, j / BLKFILES).value.files|
      && var f := Fetch(d, dir, j / BLKFILES).value.files[j % BLKFILES];
         if j < |t.kids| then ReadsAs(d, f, t.kids[j]) else f == BlankFile()
  {
    assert EntryAt(d, dir, j) == EntryAt(d, dir, j);
  }

  ghost predicate Unseen(kids: seq<Tree>, name: string, n: nat) {
    forall j :: 0 <= j < n && j < |kids| ==> kids[j].name != name
  }

  /** dir_lookup: the first entry called `name`. */
  method DirLookup(d: Disk, dir: File, name: string, ghost t: Tree) returns (r: Option<File>)
    requires t.Directory? && ReadsAs(d, dir, t) && name != ""
    ensures var i := FirstKid(t.kids, name);
      if i < |t.kids| then r.Some? && ReadsAs(d, r.value, t.kids[i]) else r.None?
  {
    var nblock, i := dir.size / BLKSIZE, 0;
    while i < nblock
      invariant 0 <= i <= nblock && Unseen(t.kids, name, BLKFILES * i)
    {
      EntryThere(d, dir, t, BLKFILES * i);
      var blk := Fetch(d, dir, i).value;
      var j := 0;
      while j < BLKFILES
        invariant 0 <= j <= BLKFILES && Unseen(t.kids, name, BLKFILES * i + j)
      {
        EntryThere(d, dir, t, BLKFILES * i + j);
        assert (BLKFILES * i + j) / BLKFILES == i && (BLKFILES * i + j) % BLKFILES == j;
        if blk.files[j].name == name {
          FirstKidAt(t.kids, name, BLKFILES * i + j);
          return Some(blk.files[j]);
        }
        j := j + 1;
      }
      i := i + 1;
    }
    if |t.kids| > 0 {
      EntryThere(d, dir, t, |t.kids| - 1);
    }
    FirstKidAt(t.kids, name, |t.kids|);
    return None;
  }

  // ---------- Paths ----------

  /** skip_slash */
  function SkipSlash(p: string): (q: string)
    ensures |q| <= |p| && (q != "" ==> q[0] != '/')
  {
    if p != "" && p[0] == '/' then SkipSlash(p[1..]) else p
  }

  /** The length of the name at the start of a path. */
  function NameLen(p: string): (n: nat)
    ensures n <= |p| && (p != "" && p[0] != '/' ==> n > 0)
  {
    if p == "" || p[0] == '/' then 0 else 1 + NameLen(p[1..])
  }

  /** The names in a path. */
  function Components(p: string): seq<string>
    decreases |p|
  {
    var q := SkipSlash(p);
    if q == "" then [] else [q[..NameLen(q)]] + Components(q[NameLen(q)..])
  }

  function Join(names: seq<string>): string {
    if names == [] then "" else "/" + names[0] + Join(names[1..])
  }

  lemma {:induction false} NameLenOf(a: string, b: string)
    requires '/' !in a && (b == "" || b[0] == '/')
    ensures NameLen(a + b) == |a|
  {
    if a == "" {
      assert a + b == b;
    } else {
      assert (a + b)[1..] == a[1..] + b;
      NameLenOf(a[1..], b);
    }
  }

  /** The first name of a path, and the rest. */
  lemma FirstName(p: string)
    requires p != "" && p[0] != '/'
    ensures Components(p) == [p[..NameLen(p)]] + Components(SkipSlash(p[NameLen(p)..]))
      && |SkipSlash(p[NameLen(p)..])| < |p|
  {
    var q := p[NameLen(p)..];
    assert SkipSlash(p) == p && SkipSlash(SkipSlash(q)) == SkipSlash(q);
  }

  lemma SlashedName(a: string, b: string)
    requires a != "" && '/' !in a && (b == "" || b[0] == '/')
    ensures Components("/" + a + b) == [a] + Components(b)
  {
    assert ("/" + a + b)[1..] == a + b;
    assert SkipSlash("/" + a + b) == a + b;
    NameLenOf(a, b);
    assert (a + b)[..|a|] == a && (a + b)[|a|..] == b;
  }

  /** Paths are read back name by name. */
  lemma {:induction false} JoinedComponents(names: seq<string>)
    requires forall i :: 0 <= i < |names| ==> names[i] != "" && '/' !in names[i]
    ensures Components(Join(names)) == names
  {
    if names != [] {
      var b := Join(names[1..]);
      assert b == "" || b[0] == '/';
      JoinedComponents(names[1..]);
      SlashedName(names[0], b);
      assert [names[0]] + names[1..] == names;
    }
  }

  /**
   What walk_path returns: the file and its directory, or, when only the last name is missing, the
   directory it would be in.
   */
  datatype Walk = Found(dir: Option<File>, f: File) | BadPath | NotFound(dir: Option<File>, last: string)

  /** Where the names lead from `t` in the directory `dir`. */
  datatype Goal = At(dir: Option<Tree>, tree: Tree) | TooLong | Missing(dir: Option<Tree>, last: string)

  function Follow(t: Tree, dir: Option<Tree>, names: seq<string>): Goal
    decreases |names|
  {
    if names == [] then At(dir, t)
    else if |names[0]| >= MAXNAMELEN then TooLong
    else if t.RegFile? then Missing(None, "")
    else
      var i := FirstKid(t.kids, names[0]);
      if i < |t.kids| then Follow(t.kids[i], Some(t), names[1..])
      else if |names| == 1 then Missing(Some(t), names[0])
      else Missing(None, "")
  }

  /** A tree is found exactly when the names lead to it and none of them is too long. */
  lemma {:induction false} FollowFinds(t: Tree, dir: Option<Tree>, names: seq<string>)
    ensures Follow(t, dir, names).At? <==>
      FindTree(t, names).Some? && forall i :: 0 <= i < |names| ==> |names[i]| < MAXNAMELEN
    ensures Follow(t, dir, names).At? ==> FindTree(t, names) == Some(Follow(t, dir, names).tree)
    decreases |names|
  {
    if names != [] && t.Directory? && FirstKid(t.kids, names[0]) < |t.kids| {
      FollowFinds(t.kids[FirstKid(t.kids, names[0])], Some(t), names[1..]);
      assert names == [names[0]] + names[1..];
    }
  }

  /** file_create is given a directory exactly when all but the last name lead to one and the last name is not in it. */
  lemma {:induction false} FollowMisses(t: Tree, dir: Option<Tree>, names: seq<string>, p: Tree, last: string)
    ensures Follow(t, dir, names) == Missing(Some(p), last) <==>
      && names != [] && names[|names| - 1] == last && (forall i :: 0 <= i < |names| ==> |names[i]| < MAXNAMELEN)
      && FindTree(t, names[..|names| - 1]) == Some(p) && p.Directory? && FirstKid(p.kids, last) == |p.kids|
    decreases |names|
  {
    if |names| == 1 {
      assert names[..0] == [];
    } else if |names| > 1 {
      var init := names[..|names| - 1];
      assert init[1..] == names[1..][..|names| - 2] && names == [names[0]] + names[1..];
      if t.Directory? && FirstKid(t.kids, names[0]) < |t.kids| {
        FollowMisses(t.kids[FirstKid(t.kids, names[0])], Some(t), names[1..], p, last);
      }
    }
  }

  lemma FollowStep(t: Tree, dir: Option<Tree>, name: string, rest: seq<string>)
    ensures Follow(t, dir, [name] + rest) ==
      if |name| >= MAXNAMELEN then TooLong
      else if t.RegFile? then Missing(None, "")
      else
        var i := FirstKid(t.kids, name);
        if i < |t.kids| then Follow(t.kids[i], Some(t), rest) else if rest == [] then Missing(Some(t), name)
          else Missing(None, "")
  {
    assert ([name] + rest)[1..] == rest;
  }

  ghost predicate DirReads(d: Disk, f: Option<File>, t: Option<Tree>) {
    f.Some? == t.Some? && (f.Some? ==> ReadsAs(d, f.value, t.value))
  }

  /** What the reader returns is what the tree has at the goal. */
  ghost predicate Reaches(d: Disk, r: Walk, goal: Goal) {
    match goal
    case At(dir, t) => r.Found? && ReadsAs(d, r.f, t) && DirReads(d, r.dir, dir)
    case TooLong => r.BadPath?
    case Missing(dir, last) => r.NotFound? && r.last == last && DirReads(d, r.dir, dir)
  }

  /** walk_path: the names of a path are followed through the image just as through the tree. */
  method WalkPath(d: Disk, path: string, ghost t: Tree) returns (r: Walk)
    requires ReadsAs(d, d.root, t)
    ensures Reaches(d, r, Follow(t, None, Components(path)))
  {
    var p, f, dir := SkipSlash(path), d.root, None;
    ghost var s, above := t, None;
    ghost var goal := Follow(t, None, Components(path));
    while p != ""
      invariant ReadsAs(d, f, s) && DirReads(d, dir, above) && (p != "" ==> p[0] != '/')
      invariant goal == Follow(s, above, Components(p))
      decreases |p|
    {
      var n := NameLen(p);
      FirstName(p);
      FollowStep(s, above, p[..n], Components(SkipSlash(p[n..])));
      dir, above := Some(f), Some(s);
      if n >= MAXNAMELEN {
        return BadPath;
      }
      var name := p[..n];
      p := SkipSlash(p[n..]);
      if !f.isDir {
        return NotFound(None, "");
      }
      var e := DirLookup(d, f, name, s);
      if e.None? {
        return if p == "" then NotFound(dir, name) else NotFound(None, "");
      }
      f := e.value;
      s := s.kids[FirstKid(s.kids, name)];
    }
    return Found(dir, f);
  }
}
