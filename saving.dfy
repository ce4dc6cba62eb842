/** Name and path composition of `adaptive_CI/saving.py`. The environment is passed
    in: the short commit hash (empty when git exits with a non-zero status), the
    time stamp string, the user name, whether the target directory already exists
    and whether the run is on the cluster. The directory creation and permission
    changes are returned as a list of effects instead of being performed. */
module Saving {
  import opened Decimal

  // ---------------------------------------------------------------------------
  // compose_filename

  /** `filter(None, parts)`: the non-empty parts. The contract states which parts
      are kept; `NonEmptyAppend` states that their order is kept. */
  function NonEmpty(parts: seq<string>): (r: seq<string>)
    ensures |r| <= |parts|
    ensures forall i :: 0 <= i < |r| ==> r[i] != ""
    ensures forall x :: x in r <==> x in parts && x != ""
  {
    if |parts| == 0 then []
    else (if parts[0] == "" then [] else [parts[0]]) + NonEmpty(parts[1..])
  }

  /** Filtering distributes over concatenation. */
  lemma {:induction false} NonEmptyAppend(a: seq<string>, b: seq<string>)
    ensures NonEmpty(a + b) == NonEmpty(a) + NonEmpty(b)
    decreases |a|
  {
    if |a| == 0 {
      assert a + b == b;
    } else {
      assert (a + b)[0] == a[0];
      assert (a + b)[1..] == a[1..] + b;
      NonEmptyAppend(a[1..], b);
    }
  }

  /** `sep.join(parts)`. */
  function Join(sep: string, parts: seq<string>): string
    decreases |parts|
  {
    if |parts| == 0 then ""
    else if |parts| == 1 then parts[0]
    else Join(sep, parts[..|parts| - 1]) + sep + parts[|parts| - 1]
  }

  /** The identifier parts in the order the source lists them; the job, step and
      task identifiers are always blank. */
  function IdentParts(prefix: string, commit: string, rnd: string): seq<string>
  {
    var jid, sid, tid := "", "", "";
    [prefix, commit, jid, sid, tid, rnd]
  }

  /** `compose_filename(prefix, extension)` with the commit hash and the time stamp
      `rnd` supplied by the caller. */
  function ComposeFilename(prefix: string, commit: string, rnd: string, extension: string): string
  {
    Join("_", NonEmpty(IdentParts(prefix, commit, rnd))) + "." + extension
  }

  /** The name is the `_`-join of the non-empty members of [prefix, commit, rnd],
      a dot and the extension: the blank job/step/task slots never contribute. */
  lemma FilenameParts(prefix: string, commit: string, rnd: string, extension: string)
    ensures ComposeFilename(prefix, commit, rnd, extension)
            == Join("_", NonEmpty([prefix, commit, rnd])) + "." + extension
  {
    NonEmptyDropsBlank([prefix, commit], ["", "", rnd]);
    NonEmptyDropsBlank([prefix, commit], ["", rnd]);
    NonEmptyDropsBlank([prefix, commit], [rnd]);
    assert IdentParts(prefix, commit, rnd) == [prefix, commit] + [""] + ["", "", rnd];
    assert [prefix, commit] + ["", "", rnd] == [prefix, commit] + [""] + ["", rnd];
    assert [prefix, commit] + ["", rnd] == [prefix, commit] + [""] + [rnd];
    assert [prefix, commit] + [rnd] == [prefix, commit, rnd];
  }

  /** A blank part never contributes. */
  lemma NonEmptyDropsBlank(a: seq<string>, b: seq<string>)
    ensures NonEmpty(a + [""] + b) == NonEmpty(a + b)
  {
    NonEmptyAppend(a + [""], b);
    NonEmptyAppend(a, [""]);
    NonEmptyAppend(a, b);
    assert NonEmpty([""]) == [] by { assert [""][1..] == []; }
  }

  /** Three non-empty parts survive the filter unchanged. */
  lemma NonEmptyThree(x: string, y: string, z: string)
    requires x != "" && y != "" && z != ""
    ensures NonEmpty([x, y, z]) == [x, y, z]
  {
    assert [z][1..] == [];
    assert NonEmpty([z]) == [z];
    assert [y, z][1..] == [z];
    assert NonEmpty([y, z]) == [y, z];
    assert [x, y, z][1..] == [y, z];
  }

  /** Joining three parts. */
  lemma JoinThree(sep: string, x: string, y: string, z: string)
    ensures Join(sep, [x, y, z]) == x + sep + y + sep + z
  {
    assert [x, y, z][..2] == [x, y];
    JoinTwo(sep, x, y);
    assert Join(sep, [x, y, z]) == (x + sep + y) + sep + z;
  }

  /** Joining two parts. */
  lemma JoinTwo(sep: string, x: string, y: string)
    ensures Join(sep, [x, y]) == x + sep + y
  {
    assert [x, y][..1] == [x];
  }

  /** With every identifier present: prefix_commit_rnd.extension. */
  lemma FilenameWithCommit(prefix: string, commit: string, rnd: string, extension: string)
    requires prefix != "" && commit != "" && rnd != ""
    ensures ComposeFilename(prefix, commit, rnd, extension)
            == prefix + "_" + commit + "_" + rnd + "." + extension
  {
    FilenameParts(prefix, commit, rnd, extension);
    NonEmptyThree(prefix, commit, rnd);
    JoinThree("_", prefix, commit, rnd);
  }

  /** When git exits with a non-zero status the commit is empty and drops out: prefix_rnd.extension. */
  lemma FilenameWithoutCommit(prefix: string, rnd: string, extension: string)
    requires prefix != "" && rnd != ""
    ensures ComposeFilename(prefix, "", rnd, extension) == prefix + "_" + rnd + "." + extension
  {
    FilenameParts(prefix, "", rnd, extension);
    NonEmptyDropsBlank([prefix], [rnd]);
    assert [prefix, "", rnd] == [prefix] + [""] + [rnd];
    assert NonEmpty([prefix, rnd]) == [prefix, rnd] by {
      assert [prefix, rnd][1..] == [rnd];
      assert [rnd][1..] == [];
    }
    JoinTwo("_", prefix, rnd);
  }

  /** With every part empty the name is just "." followed by the extension. */
  lemma FilenameAllEmpty(extension: string)
    ensures ComposeFilename("", "", "", extension) == "." + extension
  {
    FilenameParts("", "", "", extension);
    assert NonEmpty(["", "", ""]) == [] by {
      assert ["", "", ""][1..] == ["", ""];
      assert ["", ""][1..] == [""];
      assert [""][1..] == [];
    }
  }

  /** `c`-separated fields of a string (`s.split(c)`). */
  function Split(s: string, c: char): (r: seq<string>)
    ensures |r| > 0
    decreases |s|
  {
    if c !in s then [s]
    else
      var i := FirstIndex(s, c);
      [s[..i]] + Split(s[i + 1..], c)
  }

  /** Position of the first c in s. */
  function FirstIndex(s: string, c: char): (i: nat)
    requires c in s
    ensures i < |s| && s[i] == c && c !in s[..i]
  {
    if s[0] == c then 0 else 1 + FirstIndex(s[1..], c)
  }

  /** Whatever precedes the last separator, the last field is what follows it. */
  lemma {:induction false} SplitLast(a: string, c: char, d: string)
    requires c !in d
    ensures var r := Split(a + [c] + d, c); r[|r| - 1] == d
    decreases |a|
  {
    var s := a + [c] + d;
    assert s[|a|] == c;
    FirstIndexAtMost(s, c, |a|);
    var i := FirstIndex(s, c);
    if i < |a| {
      assert s[i + 1..] == a[i + 1..] + [c] + d;
      SplitLast(a[i + 1..], c, d);
    } else {
      assert s[i + 1..] == d;
    }
  }

  /** The first c comes no later than any c. */
  lemma {:induction false} FirstIndexAtMost(s: string, c: char, k: nat)
    requires k < |s| && s[k] == c
    ensures c in s && FirstIndex(s, c) <= k
  {
    if s[0] != c {
      assert s[1..][k - 1] == s[k];
      FirstIndexAtMost(s[1..], c, k - 1);
    }
  }

  /** The last field of a join whose last part has no separator is that part. */
  lemma SplitLastField(parts: seq<string>, c: char)
    requires |parts| > 0 && c !in parts[|parts| - 1]
    ensures var r := Split(Join([c], parts), c); r[|r| - 1] == parts[|parts| - 1]
  {
    if |parts| > 1 {
      SplitLast(Join([c], parts[..|parts| - 1]), c, parts[|parts| - 1]);
    }
  }

  /** A decimal numeral holds no `_`. */
  lemma NumeralHasNoUnderscore(n: nat)
    ensures '_' !in NatToString(n)
  {
    var rnd := NatToString(n);
    forall i | 0 <= i < |rnd| ensures rnd[i] != '_' {
      assert IsDigit(rnd[i]);
    }
  }

  /** A non-empty stamp is the last identifier part. */
  lemma StampIsLastPart(prefix: string, commit: string, rnd: string)
    requires rnd != ""
    ensures var parts := NonEmpty([prefix, commit, rnd]);
            |parts| > 0 && parts[|parts| - 1] == rnd
  {
    NonEmptyAppend([prefix, commit], [rnd]);
    assert [prefix, commit, rnd] == [prefix, commit] + [rnd];
    assert [rnd][1..] == [];
  }

  /** Dropping ".extension" from a name gives back its base. */
  lemma DropExtension(base: string, extension: string)
    ensures var fname := base + "." + extension;
            fname[..|fname| - |extension| - 1] == base
  {
  }

  /** A stamp free of `_` is the last `_`-field of the composed name without its
      extension. */
  lemma StampIsLastField(prefix: string, commit: string, rnd: string, extension: string)
    requires rnd != "" && '_' !in rnd
    ensures var fname := ComposeFilename(prefix, commit, rnd, extension);
            var fields := Split(fname[..|fname| - |extension| - 1], '_');
            fields[|fields| - 1] == rnd
  {
    var parts := NonEmpty([prefix, commit, rnd]);
    FilenameParts(prefix, commit, rnd, extension);
    StampIsLastPart(prefix, commit, rnd);
    DropExtension(Join("_", parts), extension);
    SplitLastField(parts, '_');
  }

  /** The time stamp `rnd = str(n)` can be read back from the composed name: it is
      the last `_`-field before the extension, whatever the prefix and commit. */
  lemma StampRoundTrip(prefix: string, commit: string, n: nat, extension: string)
    ensures var fname := ComposeFilename(prefix, commit, NatToString(n), extension);
            var fields := Split(fname[..|fname| - |extension| - 1], '_');
            ParseDigits(fields[|fields| - 1]) == n
  {
    NumeralHasNoUnderscore(n);
    StampIsLastField(prefix, commit, NatToString(n), extension);
    ParseNatToString(n);
  }

  // ---------------------------------------------------------------------------
  // get_sherlock_dir

  /** `os.path.join(path, b)` for one more component: an absolute component
      replaces the path; otherwise a `/` is inserted unless the path is empty or
      already ends with one. */
  function PathJoin(path: string, b: string): string
  {
    if |b| > 0 && b[0] == '/' then b
    else if path == "" || path[|path| - 1] == '/' then path + b
    else path + "/" + b
  }

  /** `os.path.join(a, *ps)`. */
  function PathJoinAll(a: string, ps: seq<string>): string
    decreases |ps|
  {
    if |ps| == 0 then a else PathJoin(PathJoinAll(a, ps[..|ps| - 1]), ps[|ps| - 1])
  }

  /** `base = join("/", "scratch", "groups", "athey", project, getuser())`. */
  function SherlockBase(project: string, user: string): string
  {
    PathJoinAll("/", ["scratch", "groups", "athey", project, user])
  }

  /** `path = join(base, *tail)`. */
  function SherlockPath(project: string, user: string, tail: seq<string>): string
  {
    PathJoinAll(SherlockBase(project, user), tail)
  }

  /** The directories whose permissions are set, in order: base, then base joined
      with each longer prefix of the tail. */
  function PermissionPaths(project: string, user: string, tail: seq<string>): (ps: seq<string>)
    ensures |ps| == |tail| + 1
  {
    seq(|tail| + 1, i requires 0 <= i <= |tail| => PathJoinAll(SherlockBase(project, user), tail[..i]))
  }

  /** A side effect on the file system. */
  datatype Effect = MakeDirs(dir: string) | Chmod(target: string, mode: nat)

  /** The permission bits 0o775: rwx for owner and group, r-x for others. */
  const GroupWritable: nat := 7 * 64 + 7 * 8 + 5

  /** One Chmod per directory, in order. */
  function ChmodAll(ps: seq<string>): (es: seq<Effect>)
    ensures |es| == |ps|
    ensures forall i :: 0 <= i < |ps| ==> es[i] == Chmod(ps[i], GroupWritable)
  {
    if |ps| == 0 then [] else ChmodAll(ps[..|ps| - 1]) + [Chmod(ps[|ps| - 1], GroupWritable)]
  }

  /** One more tail component adds its directory at the end of the list. */
  lemma PermissionPathsStep(project: string, user: string, tail: seq<string>, i: nat)
    requires i < |tail|
    ensures PermissionPaths(project, user, tail[..i + 1])
            == PermissionPaths(project, user, tail[..i])
               + [PathJoinAll(SherlockBase(project, user), tail[..i + 1])]
  {
    var longer, shorter := PermissionPaths(project, user, tail[..i + 1]), PermissionPaths(project, user, tail[..i]);
    forall j | 0 <= j <= i
      ensures longer[j] == shorter[j]
    {
      assert tail[..i + 1][..j] == tail[..i][..j];
    }
    assert tail[..i + 1][..i + 1] == tail[..i + 1];
  }

  /** Appending one directory appends its Chmod. */
  lemma ChmodAllSnoc(ps: seq<string>, p: string)
    ensures ChmodAll(ps + [p]) == ChmodAll(ps) + [Chmod(p, GroupWritable)]
  {
    assert (ps + [p])[..|ps|] == ps;
  }

  /** `get_sherlock_dir(project, *tail, create=create)`: the returned path, and the
      effects the call has. Only when the path is missing, creation is asked for and
      the run is on the cluster does it create the directory and then set the
      permissions of base and of each successive tail prefix. The keyword `create`,
      which defaults to true in the source, is an ordinary parameter here. */
  method GetSherlockDir(project: string, tail: seq<string>, user: string, create: bool,
                        pathExists: bool, onSherlock: bool)
    returns (path: string, effects: seq<Effect>)
    ensures path == SherlockPath(project, user, tail)
    ensures effects == if !pathExists && create && onSherlock
                       then [MakeDirs(path)] + ChmodAll(PermissionPaths(project, user, tail))
                       else []
  {
    var base := SherlockBase(project, user);
    path := PathJoinAll(base, tail);
    effects := [];
    if !pathExists && create && onSherlock {
      effects := [MakeDirs(path)];
      var chmodPath := base;
      effects := effects + [Chmod(base, GroupWritable)];
      var i := 0;
      while i < |tail|
        invariant 0 <= i <= |tail|
        invariant chmodPath == PathJoinAll(base, tail[..i])
        invariant effects == [MakeDirs(path)] + ChmodAll(PermissionPaths(project, user, tail[..i]))
      {
        assert tail[..i + 1][..i] == tail[..i];
        chmodPath := PathJoin(chmodPath, tail[i]);
        PermissionPathsStep(project, user, tail, i);
        ChmodAllSnoc(PermissionPaths(project, user, tail[..i]), chmodPath);
        effects := effects + [Chmod(chmodPath, GroupWritable)];
        i := i + 1;
      }
      assert tail[..|tail|] == tail;
    }
  }

  /** A component that is non-empty and contains no `/`. */
  predicate Plain(c: string)
  {
    c != "" && '/' !in c
  }

  /** "/" + c for each component, in order. */
  function Slashed(ps: seq<string>): string
  {
    if |ps| == 0 then "" else Slashed(ps[..|ps| - 1]) + "/" + ps[|ps| - 1]
  }

  /** A plain component neither starts nor ends with `/`. */
  lemma PlainEnds(c: string)
    requires Plain(c)
    ensures c[0] != '/' && c[|c| - 1] != '/'
  {
    assert c[0] in c && c[|c| - 1] in c;
  }

  /** For plain components joining just inserts one `/` per component. */
  lemma {:induction false} PathJoinAllPlain(a: string, ps: seq<string>)
    requires a != "" && a[|a| - 1] != '/'
    requires forall i :: 0 <= i < |ps| ==> Plain(ps[i])
    ensures var p := PathJoinAll(a, ps); p == a + Slashed(ps) && p != "" && p[|p| - 1] != '/'
    decreases |ps|
  {
    if |ps| > 0 {
      var init, last := ps[..|ps| - 1], ps[|ps| - 1];
      PathJoinAllPlain(a, init);
      PlainEnds(last);
      var p := PathJoinAll(a, init);
      assert PathJoin(p, last) == p + "/" + last;
    }
  }

  /** Slashed distributes over concatenation. */
  lemma {:induction false} SlashedAppend(a: seq<string>, b: seq<string>)
    ensures Slashed(a + b) == Slashed(a) + Slashed(b)
    decreases |b|
  {
    if |b| == 0 {
      assert a + b == a;
    } else {
      assert (a + b)[..|a + b| - 1] == a + b[..|b| - 1];
      SlashedAppend(a, b[..|b| - 1]);
    }
  }

  /** Joining plain components onto the root "/" gives "/c1/c2/...". */
  lemma {:induction false} PathJoinAllRooted(ps: seq<string>)
    requires |ps| > 0
    requires forall i :: 0 <= i < |ps| ==> Plain(ps[i])
    ensures PathJoinAll("/", ps) == Slashed(ps)
  {
    var first := ps[0];
    assert first[0] != '/' by { assert first[0] in first; }
    assert ps[..1][..0] == [];
    assert PathJoinAll("/", ps[..1]) == Slashed(ps[..1]);
    assert ps == ps[..1] + ps[1..];
    PathJoinAllSlice(ps[..1], ps[1..]);
    assert ps[..1] == [first];
    assert first[|first| - 1] != '/' by { assert first[|first| - 1] in first; }
    PathJoinAllPlain("/" + first, ps[1..]);
    SlashedAppend(ps[..1], ps[1..]);
  }

  /** Joining a concatenation of components is joining one list after the other. */
  lemma {:induction false} PathJoinAllSlice(a: seq<string>, b: seq<string>)
    ensures PathJoinAll("/", a + b) == PathJoinAll(PathJoinAll("/", a), b)
    decreases |b|
  {
    if |b| == 0 {
      assert a + b == a;
    } else {
      assert (a + b)[..|a + b| - 1] == a + b[..|b| - 1];
      PathJoinAllSlice(a, b[..|b| - 1]);
    }
  }

  /** The cluster root of the fixed components. */
  lemma ClusterRoot(project: string, user: string)
    ensures Slashed(["scratch", "groups", "athey", project, user])
            == "/scratch/groups/athey/" + project + "/" + user
  {
    var comps := ["scratch", "groups", "athey", project, user];
    assert comps[..1][..0] == [];
    assert Slashed(comps[..1]) == "/scratch";
    assert comps[..2][..1] == comps[..1];
    assert Slashed(comps[..2]) == "/scratch" + "/" + "groups";
    assert comps[..3][..2] == comps[..2];
    assert Slashed(comps[..3]) == "/scratch/groups" + "/" + "athey";
    assert comps[..4][..3] == comps[..3];
    assert Slashed(comps[..4]) == "/scratch/groups/athey" + "/" + project;
    assert comps[..5] == comps;
    assert comps[..5][..4] == comps[..4];
  }

  /** The base directory for plain project and user names. */
  lemma SherlockBaseLayout(project: string, user: string)
    requires Plain(project) && Plain(user)
    ensures SherlockBase(project, user) == "/scratch/groups/athey/" + project + "/" + user
  {
    var comps := ["scratch", "groups", "athey", project, user];
    assert Plain(comps[0]) && Plain(comps[1]) && Plain(comps[2]);
    PathJoinAllRooted(comps);
    ClusterRoot(project, user);
  }

  /** For plain project, user and tail components the path is
      "/scratch/groups/athey/" + project + "/" + user followed by "/" + c for each
      tail component, in order. */
  lemma SherlockPathLayout(project: string, user: string, tail: seq<string>)
    requires Plain(project) && Plain(user)
    requires forall i :: 0 <= i < |tail| ==> Plain(tail[i])
    ensures SherlockPath(project, user, tail)
            == "/scratch/groups/athey/" + project + "/" + user + Slashed(tail)
  {
    SherlockBaseLayout(project, user);
    var base := SherlockBase(project, user);
    assert base[|base| - 1] == user[|user| - 1];
    assert user[|user| - 1] in user;
    PathJoinAllPlain(base, tail);
  }

  /** Permissions are set from the base down to the returned path itself. */
  lemma PermissionPathsEnds(project: string, user: string, tail: seq<string>)
    ensures PermissionPaths(project, user, tail)[0] == SherlockBase(project, user)
    ensures PermissionPaths(project, user, tail)[|tail|] == SherlockPath(project, user, tail)
  {
    assert tail[..0] == [];
    assert tail[..|tail|] == tail;
  }

  /** For plain components every directory whose permissions are set is an
      ancestor of (a prefix of) the returned path, each one component longer than
      the one before. */
  lemma PermissionPathsArePrefixes(project: string, user: string, tail: seq<string>, i: nat)
    requires Plain(project) && Plain(user)
    requires forall k :: 0 <= k < |tail| ==> Plain(tail[k])
    requires i <= |tail|
    ensures PermissionPaths(project, user, tail)[i] <= SherlockPath(project, user, tail)
    ensures i < |tail| ==> PermissionPaths(project, user, tail)[i + 1]
                           == PermissionPaths(project, user, tail)[i] + "/" + tail[i]
  {
    var base := SherlockBase(project, user);
    SherlockBaseLayout(project, user);
    assert user[|user| - 1] in user;
    assert tail == tail[..i] + tail[i..];
    PathJoinAllPlain(base, tail[..i]);
    PathJoinAllPlain(base, tail);
    SlashedAppend(tail[..i], tail[i..]);
    if i < |tail| {
      PathJoinAllPlain(base, tail[..i + 1]);
      assert tail[..i + 1][..i] == tail[..i];
    }
  }

  /** The first documented example holds: no tail gives the user's directory
      under the project. */
  lemma DocExampleNoTail()
    ensures SherlockPath("adaptive-inference", "vitorh", [])
            == "/scratch/groups/athey/" + "adaptive-inference" + "/" + "vitorh"
  {
    SherlockBaseLayout("adaptive-inference", "vitorh");
  }

  /** The third documented example holds: tail components are appended in order. */
  lemma DocExampleWithTail()
    ensures SherlockPath("adaptive-inference", "vitorh", ["experiments", "exp_out"])
            == "/scratch/groups/athey/" + "adaptive-inference" + "/" + "vitorh"
               + "/" + "experiments" + "/" + "exp_out"
  {
    SherlockPathLayout("adaptive-inference", "vitorh", ["experiments", "exp_out"]);
    SlashedTwo("experiments", "exp_out");
  }

  /** Slashed of two components. */
  lemma SlashedTwo(x: string, y: string)
    ensures Slashed([x, y]) == "/" + x + "/" + y
  {
    assert [x][..0] == [];
    assert Slashed([x]) == "" + "/" + x;
    assert "" + "/" + x == "/" + x;
    assert [x, y][..1] == [x];
    assert Slashed([x, y]) == Slashed([x]) + "/" + y;
  }

  /** The call of the second documented example, with no tail, gives a path without
      the documented trailing slash; and unlike the layout line of the
      documentation the project comes before the user name. */
  lemma DocTrailingSlashDoesNotHold()
    ensures SherlockPath("toronto", "vitorh", []) == "/scratch/groups/athey/" + "toronto" + "/" + "vitorh"
    ensures SherlockPath("toronto", "vitorh", []) != "/scratch/groups/athey/" + "toronto" + "/" + "vitorh" + "/"
    ensures SherlockPath("toronto", "vitorh", []) != "/scratch/groups/athey/" + "vitorh" + "/" + "toronto"
  {
    SherlockBaseLayout("toronto", "vitorh");
    var path := "/scratch/groups/athey/" + "toronto" + "/" + "vitorh";
    var swapped := "/scratch/groups/athey/" + "vitorh" + "/" + "toronto";
    assert path[22] == 't' && swapped[22] == 'v';
  }

  /** An empty component does add a separator: `join(p, "")` is p followed by one
      `/` unless p already ends with one. */
  lemma PathJoinEmpty(p: string)
    ensures p != "" && p[|p| - 1] != '/' ==> PathJoin(p, "") == p + "/"
    ensures p == "" || p[|p| - 1] == '/' ==> PathJoin(p, "") == p
  {
  }

  /** So the documented trailing slash does come out when the tail is one empty
      component, as in `get_sherlock_dir('toronto', '')`. */
  lemma EmptyTailEndsWithSlash(project: string, user: string)
    requires Plain(project) && Plain(user)
    ensures SherlockPath(project, user, [""]) == "/scratch/groups/athey/" + project + "/" + user + "/"
  {
    SherlockBaseLayout(project, user);
    var base := SherlockBase(project, user);
    assert base[|base| - 1] == user[|user| - 1];
    assert user[|user| - 1] in user;
    assert [""][..0] == [];
    PathJoinEmpty(base);
  }
}
