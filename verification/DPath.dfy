/** `d_path` (crash/subsystem/filesystem/mount.py): from a dentry in a mount, climb
    to the namespace root and spell the path.

    A mount and the `struct vfsmount` inside it are one object here.  A position
    is a mount together with a dentry. */
module DPath {
  import opened Collections

  type Addr = nat

  datatype Dentry = Dentry(parent: Addr, name: string)

  datatype Mount = Mount(parent: Addr, mountpoint: Addr, root: Addr)

  datatype Fs = Fs(dentries: map<Addr, Dentry>, mounts: map<Addr, Mount>)

  datatype Position = Position(mount: Addr, dentry: Addr)

  /** NotAvailable is the error gdb raises when a structure cannot be read. */
  datatype Result<T> = Ok(value: T) | NotAvailable

  /** One turn of the climb. */
  datatype Move =
    | Unreadable
    | Stop                                   // a root with no mount above it
    | Jump(up: Position)                     // from a root to its mountpoint
    | Ascend(up: Position, name: string)     // from a dentry to its parent

  function Turn(fs: Fs, p: Position): Move {
    if p.mount !in fs.mounts then Unreadable
    else
      var m := fs.mounts[p.mount];
      if p.dentry != m.root && p.dentry !in fs.dentries then Unreadable
      else if p.dentry == m.root || p.dentry == fs.dentries[p.dentry].parent then
        if p.mount != m.parent then Jump(Position(m.parent, m.mountpoint)) else Stop
      else Ascend(Position(p.mount, fs.dentries[p.dentry].parent), fs.dentries[p.dentry].name)
  }

  /** Parent chains of mounts and of dentries are finite: each step that leaves an
      object for its parent lowers a rank. */
  ghost predicate Finite(fs: Fs, mountRank: Addr -> nat, dentryRank: Addr -> nat) {
    && (forall m :: m in fs.mounts && fs.mounts[m].parent != m ==> mountRank(fs.mounts[m].parent) < mountRank(m))
    && (forall d :: d in fs.dentries && fs.dentries[d].parent != d ==>
          dentryRank(fs.dentries[d].parent) < dentryRank(d))
  }

  /** The path of a position, bottom-up: a mounted root is spelled like its
      mountpoint, a dentry like its parent followed by its own name. */
  ghost function Spelling(fs: Fs, root: Position, p: Position, mr: Addr -> nat, dr: Addr -> nat): Result<string>
    requires Finite(fs, mr, dr)
    decreases mr(p.mount), dr(p.dentry)
  {
    if p == root then Ok("")
    else
      match Turn(fs, p)
      case Unreadable => NotAvailable
      case Stop => Ok("")
      case Jump(up) => Spelling(fs, root, up, mr, dr)
      case Ascend(up, name) =>
        Then(Spelling(fs, root, up, mr, dr), "/" + name)
  }

  function Then(above: Result<string>, below: string): Result<string> {
    match above
    case NotAvailable => NotAvailable
    case Ok(s) => Ok(s + below)
  }

  lemma Followed(r: Result<string>)
    ensures Then(r, "") == r
  {
    assert r.Ok? ==> r.value + "" == r.value;
  }

  lemma FollowedTwice(r: Result<string>, a: string, b: string)
    ensures Then(Then(r, a), b) == Then(r, a + b)
  {
    assert r.Ok? ==> (r.value + a) + b == r.value + (a + b);
  }

  ghost function Path(fs: Fs, root: Position, p: Position, mr: Addr -> nat, dr: Addr -> nat): Result<string>
    requires Finite(fs, mr, dr)
  {
    match Spelling(fs, root, p, mr, dr)
    case NotAvailable => NotAvailable
    case Ok(s) => Ok(if s == "" then "/" else s)
  }

  // ----- Climbs -----

  /** The top of what a mount shows: its root, or a dentry that is its own parent. */
  ghost predicate AtTop(fs: Fs, p: Position) {
    && p.mount in fs.mounts
    && (p.dentry == fs.mounts[p.mount].root || (p.dentry in fs.dentries && fs.dentries[p.dentry].parent == p.dentry))
  }

  /** ... of a mount that sits on another one, */
  ghost predicate Mounted(fs: Fs, p: Position) {
    AtTop(fs, p) && fs.mounts[p.mount].parent != p.mount
  }

  /** ... or of one that does not. */
  ghost predicate Outermost(fs: Fs, p: Position) {
    AtTop(fs, p) && fs.mounts[p.mount].parent == p.mount
  }

  /** Below the top of its mount. */
  ghost predicate Inner(fs: Fs, p: Position) {
    && p.mount in fs.mounts && p.dentry != fs.mounts[p.mount].root
    && p.dentry in fs.dentries && fs.dentries[p.dentry].parent != p.dentry
  }

  /** The mount, or the dentry that is needed, cannot be read. */
  ghost predicate Lost(fs: Fs, p: Position) {
    p.mount !in fs.mounts || (p.dentry != fs.mounts[p.mount].root && p.dentry !in fs.dentries)
  }

  /** One step up: from the top of a mount to its mountpoint, else to the parent. */
  ghost predicate Climbs(fs: Fs, p: Position, q: Position) {
    || (Mounted(fs, p) && q == Position(fs.mounts[p.mount].parent, fs.mounts[p.mount].mountpoint))
    || (Inner(fs, p) && q == Position(p.mount, fs.dentries[p.dentry].parent))
  }

  /** A way up from position t[0] that does not pass the namespace root. */
  ghost predicate Chain(fs: Fs, root: Position, t: seq<Position>) {
    && |t| >= 1
    && (forall i :: 0 <= i < |t| - 1 ==> t[i] != root)
    && (forall i :: 0 <= i < |t| - 1 ==> Climbs(fs, t[i], t[i + 1]))
  }

  /** A climb from position t[0] up to the namespace root. */
  ghost predicate Climb(fs: Fs, root: Position, t: seq<Position>) {
    Chain(fs, root, t) && t[|t| - 1] == root
  }

  /** There is nothing to climb to. */
  ghost predicate Final(fs: Fs, root: Position, p: Position) {
    p == root || Outermost(fs, p) || Lost(fs, p)
  }

  ghost predicate MountedOn(fs: Fs, x: Addr, p: Position) {
    && x in fs.mounts && fs.mounts[x].parent != x
    && fs.mounts[x].parent == p.mount && fs.mounts[x].mountpoint == p.dentry
  }

  /** No position of the climb is covered by a mount other than the one the climb
      came up through. */
  ghost predicate Uncovered(fs: Fs, t: seq<Position>) {
    forall i, x :: 0 <= i < |t| && MountedOn(fs, x, t[i]) ==> i > 0 && t[i - 1].mount == x
  }

  /** The climb leaves a mount only through the mount's root. */
  ghost predicate LeavesByRoots(fs: Fs, t: seq<Position>) {
    forall i :: 0 <= i < |t| - 1 && Mounted(fs, t[i]) ==> t[i].dentry == fs.mounts[t[i].mount].root
  }

  ghost predicate Clear(fs: Fs, t: seq<Position>) {
    Uncovered(fs, t) && LeavesByRoots(fs, t)
  }

  /** The names met below index j, topmost first. */
  ghost function Names(fs: Fs, t: seq<Position>, j: nat): seq<string>
    requires j <= |t|
  {
    if j == 0 then []
    else (if Inner(fs, t[j - 1]) then [fs.dentries[t[j - 1].dentry].name] else []) + Names(fs, t, j - 1)
  }

  ghost function Join(names: seq<string>): string {
    if names == [] then "" else "/" + names[0] + Join(names[1..])
  }

  lemma {:induction false} JoinConcat(xs: seq<string>, ys: seq<string>)
    ensures Join(xs + ys) == Join(xs) + Join(ys)
    decreases |xs|
  {
    if xs == [] {
      assert xs + ys == ys;
    } else {
      JoinConcat(xs[1..], ys);
      assert (xs + ys)[1..] == xs[1..] + ys;
      assert ("/" + xs[0]) + (Join(xs[1..]) + Join(ys)) == (("/" + xs[0]) + Join(xs[1..])) + Join(ys);
    }
  }

  lemma {:induction false} NamesSplit(fs: Fs, t: seq<Position>, j: nat)
    requires 1 <= j <= |t|
    ensures Names(fs, t, j) ==
              Names(fs, t[1..], j - 1) + (if Inner(fs, t[0]) then [fs.dentries[t[0].dentry].name] else [])
    decreases j
  {
    if j > 1 {
      NamesSplit(fs, t, j - 1);
      assert t[1..][j - 2] == t[j - 1];
    } else {
      assert Names(fs, t[1..], 0) == [];
    }
  }

  lemma ChainFrom(fs: Fs, root: Position, t: seq<Position>, k: nat)
    requires Chain(fs, root, t) && k < |t|
    ensures Chain(fs, root, t[k..]) && t[k..][|t| - k - 1] == t[|t| - 1]
  {
    forall i | 0 <= i < |t| - k - 1 ensures Climbs(fs, t[k..][i], t[k..][i + 1]) {
      assert Climbs(fs, t[k + i], t[k + i + 1]);
    }
  }

  /** Going up as far as it goes gives r: the names met, each after a slash, or the
      read error.  It makes no difference whether the way ends at the namespace root
      or at the top of an outermost mount. */
  ghost predicate Spells(fs: Fs, root: Position, t: seq<Position>, r: Result<string>) {
    && Chain(fs, root, t) && Final(fs, root, t[|t| - 1])
    && var names, last := Names(fs, t, |t| - 1), t[|t| - 1];
       if last != root && Lost(fs, last) then r == NotAvailable
       else r == Ok(if names == [] then "/" else Join(names))
  }

  lemma {:induction false} SpellingOfChain(fs: Fs, root: Position, t: seq<Position>, mr: Addr -> nat, dr: Addr -> nat)
    requires Finite(fs, mr, dr) && Chain(fs, root, t) && Final(fs, root, t[|t| - 1])
    ensures Spelling(fs, root, t[0], mr, dr) ==
              if t[|t| - 1] != root && Lost(fs, t[|t| - 1]) then NotAvailable else Ok(Join(Names(fs, t, |t| - 1)))
    decreases |t|
  {
    if |t| > 1 {
      assert Climbs(fs, t[0], t[1]);
      ChainFrom(fs, root, t, 1);
      SpellingOfChain(fs, root, t[1..], mr, dr);
      NamesSplit(fs, t, |t| - 1);
      var above := Names(fs, t[1..], |t| - 2);
      if Inner(fs, t[0]) {
        JoinLast(above, fs.dentries[t[0].dentry].name);
      } else {
        assert above + [] == above;
      }
    }
  }

  /** The path of a position that climbs to the root is the names it meets. */
  lemma SpellingOfClimb(fs: Fs, root: Position, t: seq<Position>, mr: Addr -> nat, dr: Addr -> nat)
    requires Finite(fs, mr, dr) && Climb(fs, root, t)
    ensures Spelling(fs, root, t[0], mr, dr) == Ok(Join(Names(fs, t, |t| - 1)))
  {
    SpellingOfChain(fs, root, t, mr, dr);
  }

  /** From every position there is a way up. */
  lemma {:induction false} WayUp(fs: Fs, root: Position, p: Position, mr: Addr -> nat, dr: Addr -> nat)
    returns (t: seq<Position>)
    requires Finite(fs, mr, dr)
    ensures Chain(fs, root, t) && t[0] == p && Final(fs, root, t[|t| - 1])
    decreases mr(p.mount), dr(p.dentry)
  {
    if Final(fs, root, p) {
      t := [p];
    } else {
      var up := if Mounted(fs, p) then Position(fs.mounts[p.mount].parent, fs.mounts[p.mount].mountpoint)
                else Position(p.mount, fs.dentries[p.dentry].parent);
      var above := WayUp(fs, root, up, mr, dr);
      t := [p] + above;
      forall i | 0 <= i < |t| - 1 ensures Climbs(fs, t[i], t[i + 1]) {
        assert i > 0 ==> Climbs(fs, above[i - 1], above[i]);
      }
    }
  }

  /** There is one. */
  lemma {:induction false} OneWayUp(fs: Fs, root: Position, s: seq<Position>, t: seq<Position>)
    requires Chain(fs, root, s) && Final(fs, root, s[|s| - 1])
    requires Chain(fs, root, t) && Final(fs, root, t[|t| - 1]) && s[0] == t[0]
    ensures s == t
    decreases |s|
  {
    if |s| > 1 && |t| > 1 {
      assert Climbs(fs, s[0], s[1]) && Climbs(fs, t[0], t[1]);
      ChainFrom(fs, root, s, 1);
      ChainFrom(fs, root, t, 1);
      OneWayUp(fs, root, s[1..], t[1..]);
      assert s == [s[0]] + s[1..] && t == [t[0]] + t[1..];
    } else {
      assert |s| > 1 ==> Climbs(fs, s[0], s[1]);
      assert |t| > 1 ==> Climbs(fs, t[0], t[1]);
    }
  }

  /** What the path of a position is, from the fields of mounts and dentries alone. */
  lemma PathMeaning(fs: Fs, root: Position, t: seq<Position>, mr: Addr -> nat, dr: Addr -> nat)
    requires Finite(fs, mr, dr) && Chain(fs, root, t) && Final(fs, root, t[|t| - 1])
    ensures Spells(fs, root, t, Path(fs, root, t[0], mr, dr))
  {
    SpellingOfChain(fs, root, t, mr, dr);
    var names := Names(fs, t, |t| - 1);
    assert names != [] ==> |Join(names)| >= 1;
  }

  /** Reading fails exactly if the way up comes to something that cannot be read. */
  lemma NotAvailableIff(fs: Fs, root: Position, p: Position, mr: Addr -> nat, dr: Addr -> nat)
    requires Finite(fs, mr, dr)
    ensures Path(fs, root, p, mr, dr) == NotAvailable <==>
              exists t :: Chain(fs, root, t) && t[0] == p && t[|t| - 1] != root && Lost(fs, t[|t| - 1])
  {
    var t := WayUp(fs, root, p, mr, dr);
    PathMeaning(fs, root, t, mr, dr);
    forall s | Chain(fs, root, s) && s[0] == p && s[|s| - 1] != root && Lost(fs, s[|s| - 1]) ensures s == t {
      OneWayUp(fs, root, s, t);
    }
  }

  lemma JoinLast(names: seq<string>, name: string)
    ensures Join(names + [name]) == Join(names) + ("/" + name)
  {
    JoinConcat(names, [name]);
    assert [name][1..] == [];
    assert "/" + name + "" == "/" + name;
  }

  /** The loop of the source, which spells the path from its end. */
  method DPath(fs: Fs, start: Position, root: Position, ghost mr: Addr -> nat, ghost dr: Addr -> nat)
    returns (r: Result<string>)
    requires Finite(fs, mr, dr)
    ensures r == Path(fs, root, start, mr, dr)
    ensures exists t :: Spells(fs, root, t, r) && t[0] == start
  {
    ghost var way := WayUp(fs, root, start, mr, dr);
    PathMeaning(fs, root, way, mr, dr);
    var name := "";
    var dentry, mount := start.dentry, start.mount;
    assert Position(mount, dentry) == start;
    Followed(Spelling(fs, root, start, mr, dr));
    while dentry != root.dentry || mount != root.mount
      invariant Spelling(fs, root, start, mr, dr) ==
                Then(Spelling(fs, root, Position(mount, dentry), mr, dr), name)
      decreases mr(mount), dr(dentry)
    {
      if mount !in fs.mounts {
        return NotAvailable;
      }
      var mnt := fs.mounts[mount];
      if dentry != mnt.root && dentry !in fs.dentries {
        return NotAvailable;
      }
      if dentry == mnt.root || dentry == fs.dentries[dentry].parent {
        if mount != mnt.parent {
          dentry := mnt.mountpoint;
          mount := mnt.parent;
          continue;
        }
        break;
      }
      FollowedTwice(Spelling(fs, root, Position(mount, fs.dentries[dentry].parent), mr, dr),
                    "/" + fs.dentries[dentry].name, name);
      name := "/" + fs.dentries[dentry].name + name;
      dentry := fs.dentries[dentry].parent;
    }
    assert "" + name == name;
    if name == "" {
      name := "/";
    }
    r := Ok(name);
  }

  // ----- Different positions have different paths -----

  /** Dentries below another one have proper names, different from their siblings';
      a dentry that is its own parent may be called anything, and Linux calls it "/". */
  ghost predicate ProperNames(fs: Fs) {
    && (forall d :: d in fs.dentries && fs.dentries[d].parent != d ==>
          fs.dentries[d].name != "" && '/' !in fs.dentries[d].name)
    && (forall c, d :: Siblings(fs, c, d) && c != d ==> fs.dentries[c].name != fs.dentries[d].name)
  }

  ghost predicate Siblings(fs: Fs, c: Addr, d: Addr) {
    && c in fs.dentries && d in fs.dentries
    && fs.dentries[c].parent == fs.dentries[d].parent
    && fs.dentries[c].parent != c && fs.dentries[d].parent != d
  }

  ghost predicate OneMountPerPoint(fs: Fs) {
    forall x, y, p :: MountedOn(fs, x, p) && MountedOn(fs, y, p) ==> x == y
  }

  lemma NamesBelow(fs: Fs, t: seq<Position>, j: nat)
    requires 1 <= j <= |t|
    ensures Names(fs, t, j - 1) == if Inner(fs, t[j - 1]) then Names(fs, t, j)[1..] else Names(fs, t, j)
  {
  }

  /** Two clear climbs that stand on the same position and have the same names
      below are the same from there down. */
  lemma {:induction false} SameBelow(fs: Fs, root: Position, s: seq<Position>, j: nat, t: seq<Position>, k: nat)
    requires ProperNames(fs) && OneMountPerPoint(fs)
    requires Climb(fs, root, s) && Clear(fs, s) && Climb(fs, root, t) && Clear(fs, t)
    requires j < |s| && k < |t| && s[j] == t[k] && Names(fs, s, j) == Names(fs, t, k)
    ensures s[0] == t[0]
    decreases j
  {
    if j == 0 || k == 0 {
      NothingBelow(fs, root, s, j, t, k);
    } else {
      assert Climbs(fs, s[j - 1], s[j]) && Climbs(fs, t[k - 1], t[k]);
      if Mounted(fs, s[j - 1]) {
        assert MountedOn(fs, s[j - 1].mount, s[j]);
        assert t[k - 1].mount == s[j - 1].mount;
      } else if Mounted(fs, t[k - 1]) {
        assert MountedOn(fs, t[k - 1].mount, t[k]);
        assert false;
      } else {
        assert Names(fs, s, j)[0] == Names(fs, t, k)[0];
        assert Siblings(fs, s[j - 1].dentry, t[k - 1].dentry);
      }
      assert s[j - 1] == t[k - 1];
      NamesBelow(fs, s, j);
      NamesBelow(fs, t, k);
      SameBelow(fs, root, s, j - 1, t, k - 1);
    }
  }

  lemma JumpIsMount(fs: Fs, p: Position, q: Position)
    requires Climbs(fs, p, q) && Mounted(fs, p)
    ensures MountedOn(fs, p.mount, q)
  {
  }

  lemma NothingBelow(fs: Fs, root: Position, s: seq<Position>, j: nat, t: seq<Position>, k: nat)
    requires Climb(fs, root, s) && Clear(fs, s) && Climb(fs, root, t) && Clear(fs, t)
    requires j < |s| && k < |t| && s[j] == t[k] && Names(fs, s, j) == Names(fs, t, k)
    requires j == 0 || k == 0
    ensures j == k == 0
  {
    if j > 0 {
      assert Climbs(fs, s[j - 1], s[j]);
      if Mounted(fs, s[j - 1]) {
        JumpIsMount(fs, s[j - 1], s[j]);
      }
    } else if k > 0 {
      assert Climbs(fs, t[k - 1], t[k]);
      if Mounted(fs, t[k - 1]) {
        JumpIsMount(fs, t[k - 1], t[k]);
      }
    }
  }

  ghost predicate SlashFree(names: seq<string>) {
    forall i :: 0 <= i < |names| ==> names[i] != "" && '/' !in names[i]
  }

  lemma {:induction false} NamesProper(fs: Fs, t: seq<Position>, j: nat)
    requires ProperNames(fs) && j <= |t|
    ensures SlashFree(Names(fs, t, j))
  {
    if j > 0 {
      NamesProper(fs, t, j - 1);
    }
  }

  lemma AfterName(xs: seq<string>)
    requires xs != []
    ensures var n := 1 + |xs[0]|; |Join(xs)| == n || (|Join(xs)| > n && Join(xs)[n] == '/')
  {
    assert Join(xs) == ("/" + xs[0]) + Join(xs[1..]);
    assert xs[1..] != [] ==> Join(xs[1..])[0] == '/';
  }

  lemma InName(xs: seq<string>, k: nat)
    requires xs != [] && k < |xs[0]| && '/' !in xs[0]
    ensures |Join(xs)| > 1 + k && Join(xs)[1 + k] != '/'
  {
    assert Join(xs) == ("/" + xs[0]) + Join(xs[1..]);
    assert Join(xs)[1 + k] == xs[0][k];
  }

  lemma FirstName(xs: seq<string>, ys: seq<string>)
    requires SlashFree(xs) && SlashFree(ys) && xs != [] && ys != []
    requires Join(xs) == Join(ys)
    ensures |xs[0]| >= |ys[0]|
  {
    forall k | 1 <= k <= |ys[0]| ensures |Join(ys)| > k && Join(ys)[k] != '/' {
      InName(ys, k - 1);
    }
    AfterName(xs);
  }

  /** A path can be taken apart again. */
  lemma {:induction false} JoinInjective(xs: seq<string>, ys: seq<string>)
    requires SlashFree(xs) && SlashFree(ys)
    requires Join(xs) == Join(ys)
    ensures xs == ys
    decreases |xs|
  {
    if xs != [] && ys != [] {
      FirstName(xs, ys);
      FirstName(ys, xs);
      var n := |xs[0]|;
      assert Join(xs) == "/" + xs[0] + Join(xs[1..]);
      assert Join(ys) == "/" + ys[0] + Join(ys[1..]);
      assert Join(xs)[1..1 + n] == xs[0] && Join(ys)[1..1 + n] == ys[0];
      assert Join(xs)[1 + n..] == Join(xs[1..]) && Join(ys)[1 + n..] == Join(ys[1..]);
      JoinInjective(xs[1..], ys[1..]);
      assert xs == [xs[0]] + xs[1..];
      assert ys == [ys[0]] + ys[1..];
    }
  }

  lemma RootedPath(fs: Fs, root: Position, t: seq<Position>, mr: Addr -> nat, dr: Addr -> nat)
    requires Finite(fs, mr, dr) && Climb(fs, root, t) && ProperNames(fs)
    ensures var names := Names(fs, t, |t| - 1);
            && SlashFree(names)
            && Path(fs, root, t[0], mr, dr) == Ok(if names == [] then "/" else Join(names))
            && (names != [] ==> |Join(names)| >= 2)
  {
    SpellingOfClimb(fs, root, t, mr, dr);
    NamesProper(fs, t, |t| - 1);
    var names := Names(fs, t, |t| - 1);
    assert names != [] ==> |names[0]| >= 1;
  }

  /** Positions with clear climbs to the namespace root and the same path are the
      same position. */
  lemma PathsAreUnique(fs: Fs, root: Position, s: seq<Position>, t: seq<Position>, mr: Addr -> nat, dr: Addr -> nat)
    requires Finite(fs, mr, dr) && ProperNames(fs) && OneMountPerPoint(fs)
    requires Climb(fs, root, s) && Clear(fs, s) && Climb(fs, root, t) && Clear(fs, t)
    requires Path(fs, root, s[0], mr, dr) == Path(fs, root, t[0], mr, dr)
    ensures s[0] == t[0]
  {
    RootedPath(fs, root, s, mr, dr);
    RootedPath(fs, root, t, mr, dr);
    JoinInjective(Names(fs, s, |s| - 1), Names(fs, t, |t| - 1));
    SameBelow(fs, root, s, |s| - 1, t, |t| - 1);
  }

  // ----- Exactly when paths are unique -----

  /** Uncovered positions that climb to the namespace root never share a path. */
  ghost predicate UniquePaths(fs: Fs, root: Position, mr: Addr -> nat, dr: Addr -> nat)
    requires Finite(fs, mr, dr)
  {
    forall s, t |
      && Climb(fs, root, s) && Uncovered(fs, s) && Climb(fs, root, t) && Uncovered(fs, t)
      && Path(fs, root, s[0], mr, dr) == Path(fs, root, t[0], mr, dr)
      :: s[0] == t[0]
  }

  ghost predicate AllLeaveByRoots(fs: Fs, root: Position) {
    forall t :: Climb(fs, root, t) && Uncovered(fs, t) ==> LeavesByRoots(fs, t)
  }

  lemma {:induction false} ClimbLowers(fs: Fs, root: Position, t: seq<Position>, mr: Addr -> nat, dr: Addr -> nat)
    requires Finite(fs, mr, dr) && Climb(fs, root, t)
    ensures mr(root.mount) <= mr(t[0].mount)
    decreases |t|
  {
    if |t| > 1 {
      assert Climbs(fs, t[0], t[1]);
      ChainFrom(fs, root, t, 1);
      ClimbLowers(fs, root, t[1..], mr, dr);
    }
  }

  /** A mounted root above a climb extends it downwards. */
  lemma ClimbBelow(fs: Fs, root: Position, x: Addr, t: seq<Position>, mr: Addr -> nat, dr: Addr -> nat)
    requires Finite(fs, mr, dr) && Climb(fs, root, t) && MountedOn(fs, x, t[0])
    ensures var p := Position(x, fs.mounts[x].root);
            Climb(fs, root, [p] + t) && Spelling(fs, root, p, mr, dr) == Spelling(fs, root, t[0], mr, dr)
  {
    var p := Position(x, fs.mounts[x].root);
    ClimbLowers(fs, root, t, mr, dr);
    forall i | 0 <= i < |t| ensures Climbs(fs, ([p] + t)[i], ([p] + t)[i + 1]) {
      assert i > 0 ==> Climbs(fs, t[i - 1], t[i]);
    }
  }

  /** Through the mounts stacked on its first position, a climb can be extended
      down to one that nothing covers; the path stays the same. */
  lemma {:induction false} Surface(fs: Fs, root: Position, w: seq<Position>, mr: Addr -> nat, dr: Addr -> nat)
    returns (v: seq<Position>)
    requires Finite(fs, mr, dr) && OneMountPerPoint(fs) && Climb(fs, root, w)
    requires forall i, x :: 0 < i < |w| && MountedOn(fs, x, w[i]) ==> w[i - 1].mount == x
    ensures Climb(fs, root, v) && Uncovered(fs, v)
    ensures |v| >= |w| && v[|v| - |w|..] == w
    ensures Spelling(fs, root, v[0], mr, dr) == Spelling(fs, root, w[0], mr, dr)
    decreases |Above(fs, w[0].mount, mr)|
  {
    v := w;
    if x :| MountedOn(fs, x, w[0]) {
      ClimbBelow(fs, root, x, w, mr, dr);
      var p := Position(x, fs.mounts[x].root);
      Fewer(fs, x, w[0].mount, mr);
      v := Surface(fs, root, [p] + w, mr, dr);
      assert v[|v| - |w|..] == v[|v| - |w| - 1..][1..];
    }
  }

  /** The mounts that rank higher than m. */
  ghost function Above(fs: Fs, m: Addr, mr: Addr -> nat): set<Addr> {
    set x | x in fs.mounts && mr(x) > mr(m)
  }

  lemma Fewer(fs: Fs, x: Addr, m: Addr, mr: Addr -> nat)
    requires x in fs.mounts && mr(x) > mr(m)
    ensures |Above(fs, x, mr)| < |Above(fs, m, mr)|
  {
    assert Above(fs, x, mr) <= Above(fs, m, mr) - {x};
    SubsetSize(Above(fs, x, mr), Above(fs, m, mr) - {x});
  }

  /** Where the stretch of jumps that arrives at index i began: that position is
      uncovered and has the path of index i. */
  lemma {:induction false} JumpsBegin(fs: Fs, root: Position, t: seq<Position>, i: nat,
                                      mr: Addr -> nat, dr: Addr -> nat)
    returns (k: nat)
    requires Finite(fs, mr, dr) && Climb(fs, root, t) && Uncovered(fs, t) && i < |t|
    ensures k <= i && Climb(fs, root, t[k..]) && Uncovered(fs, t[k..])
    ensures Spelling(fs, root, t[k], mr, dr) == Spelling(fs, root, t[i], mr, dr)
    decreases i
  {
    if i > 0 && Mounted(fs, t[i - 1]) {
      assert Climbs(fs, t[i - 1], t[i]);
      k := JumpsBegin(fs, root, t, i - 1, mr, dr);
    } else {
      k := i;
      ChainFrom(fs, root, t, i);
      assert i > 0 ==> Climbs(fs, t[i - 1], t[i]);
    }
  }

  /** A climb that leaves a mount elsewhere than through its root passes a
      position whose path another position has as well. */
  lemma SharedPath(fs: Fs, root: Position, t: seq<Position>, i: nat, mr: Addr -> nat, dr: Addr -> nat)
    returns (s: seq<Position>, v: seq<Position>)
    requires Finite(fs, mr, dr) && OneMountPerPoint(fs) && Climb(fs, root, t) && Uncovered(fs, t)
    requires i < |t| - 1 && Mounted(fs, t[i]) && t[i].dentry != fs.mounts[t[i].mount].root
    ensures Climb(fs, root, s) && Uncovered(fs, s) && Climb(fs, root, v) && Uncovered(fs, v)
    ensures Path(fs, root, s[0], mr, dr) == Path(fs, root, v[0], mr, dr) && s[0] != v[0]
  {
    var m := t[i].mount;
    var up := t[i + 1..];
    assert Climbs(fs, t[i], t[i + 1]);
    assert MountedOn(fs, m, up[0]);
    ChainFrom(fs, root, t, i + 1);
    ClimbBelow(fs, root, m, up, mr, dr);
    var w := [Position(m, fs.mounts[m].root)] + up;
    forall j, x | 0 < j < |w| && MountedOn(fs, x, w[j]) ensures w[j - 1].mount == x {
      assert w[j] == t[i + j];
    }
    v := Surface(fs, root, w, mr, dr);
    var k := JumpsBegin(fs, root, t, i, mr, dr);
    s := t[k..];
    assert s[|s| - |w|] == t[i] && v[|v| - |w|] == w[0];
    if s[0] == v[0] {
      OneWayUp(fs, root, s, v);
    }
  }

  /** Paths are unique in a name space if and only if no uncovered climb leaves a
      mount elsewhere than through its root. */
  lemma UniqueIff(fs: Fs, root: Position, mr: Addr -> nat, dr: Addr -> nat)
    requires Finite(fs, mr, dr) && ProperNames(fs) && OneMountPerPoint(fs)
    ensures UniquePaths(fs, root, mr, dr) <==> AllLeaveByRoots(fs, root)
  {
    if AllLeaveByRoots(fs, root) {
      forall s, t | Climb(fs, root, s) && Uncovered(fs, s) && Climb(fs, root, t) && Uncovered(fs, t)
                    && Path(fs, root, s[0], mr, dr) == Path(fs, root, t[0], mr, dr)
        ensures s[0] == t[0]
      {
        PathsAreUnique(fs, root, s, t, mr, dr);
      }
    } else {
      var t: seq<Position> :| Climb(fs, root, t) && Uncovered(fs, t) && !LeavesByRoots(fs, t);
      var i :| 0 <= i < |t| - 1 && Mounted(fs, t[i]) && t[i].dentry != fs.mounts[t[i].mount].root;
      var s, v := SharedPath(fs, root, t, i, mr, dr);
    }
  }

  // A small name space: mount 2 sits on dentry 11 ("d"), and dentry 21 belongs to
  // no tree.
  const DETACHED := Fs(
    map[10 := Dentry(10, "/"), 11 := Dentry(10, "d"), 20 := Dentry(20, "/"), 21 := Dentry(21, "/")],
    map[1 := Mount(1, 10, 10), 2 := Mount(1, 11, 20)])
  const TOP := Position(1, 10)
  const VIA_ROOT := [Position(2, 20), Position(1, 11), TOP]
  const VIA_DETACHED := [Position(2, 21), Position(1, 11), TOP]

  lemma DetachedSteps()
    ensures Inner(DETACHED, Position(1, 11)) && Climbs(DETACHED, Position(1, 11), TOP)
    ensures Mounted(DETACHED, Position(2, 20)) && Climbs(DETACHED, Position(2, 20), Position(1, 11))
    ensures Mounted(DETACHED, Position(2, 21)) && Climbs(DETACHED, Position(2, 21), Position(1, 11))
  {
  }

  /** A jump to the dentry "d", and up from there. */
  lemma DetachedClimb(t: seq<Position>)
    requires t == VIA_ROOT || t == VIA_DETACHED
    ensures Climb(DETACHED, TOP, t) && Uncovered(DETACHED, t) && Names(DETACHED, t, 2) == ["d"]
  {
    DetachedSteps();
    assert Climbs(DETACHED, t[0], t[1]) && Climbs(DETACHED, t[1], t[2]);
    assert Names(DETACHED, t, 0) == [];
    assert Names(DETACHED, t, 1) == [] + Names(DETACHED, t, 0);
    assert Names(DETACHED, t, 2) == ["d"] + Names(DETACHED, t, 1);
  }

  lemma DetachedPath(t: seq<Position>, mr: Addr -> nat, dr: Addr -> nat)
    requires Finite(DETACHED, mr, dr) && (t == VIA_ROOT || t == VIA_DETACHED)
    ensures Climb(DETACHED, TOP, t) && Uncovered(DETACHED, t)
    ensures Path(DETACHED, TOP, t[0], mr, dr) == Ok("/d")
  {
    DetachedClimb(t);
    SpellingOfClimb(DETACHED, TOP, t, mr, dr);
    assert ["d"][1..] == [] && "/" + "d" + "" == "/d";
  }

  lemma DetachedProper()
    ensures ProperNames(DETACHED) && OneMountPerPoint(DETACHED)
  {
  }

  /** Without the condition that climbs leave a mount through the mount's root,
      paths are not unique: a dentry that is its own parent but not the root of
      its mount is spelled like the mount's root. */
  lemma DisconnectedDentry(mr: Addr -> nat, dr: Addr -> nat)
    requires Finite(DETACHED, mr, dr)
    ensures ProperNames(DETACHED) && OneMountPerPoint(DETACHED)
    ensures Climb(DETACHED, TOP, VIA_ROOT) && Uncovered(DETACHED, VIA_ROOT) && LeavesByRoots(DETACHED, VIA_ROOT)
    ensures Climb(DETACHED, TOP, VIA_DETACHED) && Uncovered(DETACHED, VIA_DETACHED)
    ensures VIA_ROOT[0] != VIA_DETACHED[0]
    ensures Path(DETACHED, TOP, VIA_ROOT[0], mr, dr) == Path(DETACHED, TOP, VIA_DETACHED[0], mr, dr)
  {
    DetachedProper();
    DetachedPath(VIA_ROOT, mr, dr);
    DetachedPath(VIA_DETACHED, mr, dr);
    DetachedSteps();
  }
}
