/** Listing all files of a file share (convoy/task_factory.py:164-188). */
module FileShare {
  import opened Common

  /** The tree below a directory of the share. */
  datatype Entry = File(name: string) | Directory(name: string, entries: seq<Entry>)

  /** One item of a directory listing. */
  datatype Item = Item(name: string, isFile: bool)

  /** The service's listing of a directory; the share itself is None. */
  type Listing = Option<string> -> seq<Item>

  /** '{}/{}'.format(dir, name), or the bare name at the top of the share */
  function PathOf(dir: Option<string>, name: string): string {
    if dir.Some? then dir.value + ['/'] + name else name
  }

  /** The recursive enumeration of the files below a directory. */
  function Enumerate(dir: Option<string>, entries: seq<Entry>): seq<string>
    decreases entries
  {
    if entries == [] then []
    else
      var n := |entries| - 1;
      Enumerate(dir, entries[..n]) +
      match entries[n]
      case File(name) => [PathOf(dir, name)]
      case Directory(name, sub) => Enumerate(Some(PathOf(dir, name)), sub)
  }

  function ItemOf(e: Entry): Item {
    Item(e.name, e.File?)
  }

  /** The service lists the tree under dir. */
  ghost predicate Shows(list: Listing, dir: Option<string>, entries: seq<Entry>)
    decreases entries
  {
    && |list(dir)| == |entries|
    && forall i | 0 <= i < |entries| ::
         && list(dir)[i] == ItemOf(entries[i])
         && (entries[i].Directory? ==> Shows(list, Some(PathOf(dir, entries[i].name)), entries[i].entries))
  }

  /** The directories below a directory. */
  function Directories(entries: seq<Entry>): nat
    decreases entries
  {
    if entries == [] then 0
    else
      var n := |entries| - 1;
      Directories(entries[..n]) + if entries[n].Directory? then 1 + Directories(entries[n].entries) else 0
  }

  /** A directory on the stack with the tree below it. */
  datatype Pending = Pending(dir: Option<string>, entries: seq<Entry>)

  function StillToYield(stack: seq<Pending>): multiset<string> {
    if stack == [] then multiset{}
    else
      var n := |stack| - 1;
      StillToYield(stack[..n]) + multiset(Enumerate(stack[n].dir, stack[n].entries))
  }

  function StillToList(stack: seq<Pending>): nat {
    if stack == [] then 0
    else
      var n := |stack| - 1;
      StillToList(stack[..n]) + 1 + Directories(stack[n].entries)
  }

  ghost predicate Matches(list: Listing, dirs: seq<Option<string>>, stack: seq<Pending>) {
    && |dirs| == |stack|
    && forall i | 0 <= i < |dirs| :: stack[i].dir == dirs[i] && Shows(list, stack[i].dir, stack[i].entries)
  }

  lemma Pushed(stack: seq<Pending>, p: Pending)
    ensures StillToYield(stack + [p]) == StillToYield(stack) + multiset(Enumerate(p.dir, p.entries))
    ensures StillToList(stack + [p]) == StillToList(stack) + 1 + Directories(p.entries)
  {
    assert (stack + [p])[..|stack|] == stack;
  }

  lemma NextEntry(dir: Option<string>, entries: seq<Entry>, i: nat)
    requires i < |entries|
    ensures var e, path := entries[i], PathOf(dir, entries[i].name);
      && multiset(Enumerate(dir, entries[..i + 1])) == multiset(Enumerate(dir, entries[..i])) +
         (if e.File? then multiset{path} else multiset(Enumerate(Some(path), e.entries)))
      && Directories(entries[..i + 1]) == Directories(entries[..i]) + if e.File? then 0 else 1 + Directories(e.entries)
  {
    assert entries[..i + 1][..i] == entries[..i];
  }

  lemma MovedOver(out: multiset<string>, found: multiset<string>, rest: multiset<string>, popped: multiset<string>,
                  left: multiset<string>, all: multiset<string>)
    requires out + (rest + popped) == all && found + left == rest + popped
    ensures (out + found) + left == all
  {
    assert (out + found) + left == out + (found + left);
  }

  /** What listing a directory has yielded and pushed after i items. */
  ghost predicate Listed(list: Listing, dir: Option<string>, entries: seq<Entry>, i: nat, before: seq<Pending>,
                         found: seq<string>, dirs: seq<Option<string>>, stack: seq<Pending>)
    requires i <= |entries|
  {
    && Matches(list, dirs, stack)
    && multiset(found) + StillToYield(stack) == StillToYield(before) + multiset(Enumerate(dir, entries[..i]))
    && StillToList(stack) == StillToList(before) + Directories(entries[..i])
  }

  lemma AddToBoth(a: multiset<string>, b: multiset<string>, c: multiset<string>, d: multiset<string>, x: multiset<string>)
    requires a + b == c + d
    ensures (a + x) + b == c + (d + x) && a + (b + x) == c + (d + x)
  {
    assert (a + x) + b == (a + b) + x && c + (d + x) == (c + d) + x && a + (b + x) == (a + b) + x;
  }

  lemma FileListed(list: Listing, dir: Option<string>, entries: seq<Entry>, i: nat, before: seq<Pending>,
                   found: seq<string>, dirs: seq<Option<string>>, stack: seq<Pending>)
    requires i < |entries| && entries[i].File? && Listed(list, dir, entries, i, before, found, dirs, stack)
    ensures Listed(list, dir, entries, i + 1, before, found + [PathOf(dir, entries[i].name)], dirs, stack)
  {
    NextEntry(dir, entries, i);
    var path := PathOf(dir, entries[i].name);
    assert multiset(found + [path]) == multiset(found) + multiset{path};
    AddToBoth(multiset(found), StillToYield(stack), StillToYield(before), multiset(Enumerate(dir, entries[..i])),
      multiset{path});
  }

  lemma DirectoryListed(list: Listing, dir: Option<string>, entries: seq<Entry>, i: nat, before: seq<Pending>,
                        found: seq<string>, dirs: seq<Option<string>>, stack: seq<Pending>)
    requires i < |entries| && entries[i].Directory? && Listed(list, dir, entries, i, before, found, dirs, stack)
    requires Shows(list, Some(PathOf(dir, entries[i].name)), entries[i].entries)
    ensures var path := Some(PathOf(dir, entries[i].name));
      Listed(list, dir, entries, i + 1, before, found, dirs + [path], stack + [Pending(path, entries[i].entries)])
  {
    NextEntry(dir, entries, i);
    var path := Some(PathOf(dir, entries[i].name));
    Pushed(stack, Pending(path, entries[i].entries));
    AddToBoth(multiset(found), StillToYield(stack), StillToYield(before), multiset(Enumerate(dir, entries[..i])),
      multiset(Enumerate(path, entries[i].entries)));
  }

  /** The loop over the items of one directory. */
  method ListDirectory(list: Listing, dir: Option<string>, ghost entries: seq<Entry>, before: seq<Option<string>>,
                       ghost stackBefore: seq<Pending>)
    returns (found: seq<string>, dirs: seq<Option<string>>, ghost stack: seq<Pending>)
    requires Shows(list, dir, entries) && Matches(list, before, stackBefore)
    ensures Listed(list, dir, entries, |entries|, stackBefore, found, dirs, stack)
  {
    found, dirs, stack := [], before, stackBefore;
    var files := list(dir);
    for i := 0 to |files|
      invariant Listed(list, dir, entries, i, stackBefore, found, dirs, stack)
    {
      assert files[i] == ItemOf(entries[i]);
      var path := PathOf(dir, files[i].name);
      if files[i].isFile {
        FileListed(list, dir, entries, i, stackBefore, found, dirs, stack);
        found := found + [path];
      } else {
        DirectoryListed(list, dir, entries, i, stackBefore, found, dirs, stack);
        dirs, stack := dirs + [Some(path)], stack + [Pending(Some(path), entries[i].entries)];
      }
    }
  }

  // ---- each file once ------------------------------------------------------

  /** Names hold no separator, and no two entries of a directory share one. */
  ghost predicate WellNamed(entries: seq<Entry>)
    decreases entries
  {
    && (forall i | 0 <= i < |entries| :: '/' !in entries[i].name && (entries[i].Directory? ==> WellNamed(entries[i].entries)))
    && (forall i, j | 0 <= i < j < |entries| :: entries[i].name != entries[j].name)
  }

  /** path is base or lies below it. */
  predicate Under(base: string, path: string) {
    base == path || base + ['/'] <= path
  }

  lemma UnderParent(base: string, name: string, path: string)
    requires Under(base + ['/'] + name, path)
    ensures Under(base, path)
  {
    var q := base + ['/'] + name;
    assert base + ['/'] <= q && q <= path;
    assert forall k | 0 <= k < |base| + 1 :: (base + ['/'])[k] == q[k] == path[k];
  }

  lemma OneNameOnly(dir: Option<string>, a: string, b: string, path: string)
    requires '/' !in a && '/' !in b
    requires Under(PathOf(dir, a), path) && Under(PathOf(dir, b), path)
    ensures a == b
  {
    var base := if dir.Some? then dir.value + ['/'] else [];
    assert PathOf(dir, a) == base + a && PathOf(dir, b) == base + b;
    if |a| <= |b| {
      StartsAlike(base, a, b, path);
    } else {
      StartsAlike(base, b, a, path);
    }
  }

  lemma SeparatorFollows(base: string, a: string, b: string, path: string)
    requires |a| < |b| && Under(base + a, path) && Under(base + b, path)
    ensures b[|a|] == '/'
  {
    var n := |base|;
    assert b[|a|] == (base + b)[n + |a|] == path[n + |a|];
    assert path[n + |a|] == (base + a + ['/'])[n + |a|];
  }

  lemma StartsAlike(base: string, a: string, b: string, path: string)
    requires '/' !in b && |a| <= |b| && Under(base + a, path) && Under(base + b, path)
    ensures a == b
  {
    var n := |base|;
    assert forall k | 0 <= k < |a| :: a[k] == (base + a)[n + k] == path[n + k];
    assert forall k | 0 <= k < |b| :: b[k] == (base + b)[n + k] == path[n + k];
    if |a| < |b| {
      SeparatorFollows(base, a, b, path);
    }
  }

  /** Every file of the enumeration lies below an entry. */
  lemma {:induction false} BelowSomeEntry(dir: Option<string>, entries: seq<Entry>, path: string) returns (i: nat)
    requires path in Enumerate(dir, entries)
    ensures i < |entries| && Under(PathOf(dir, entries[i].name), path)
    decreases entries
  {
    var n := |entries| - 1;
    var e := entries[n];
    if path in Enumerate(dir, entries[..n]) {
      i := BelowSomeEntry(dir, entries[..n], path);
    } else {
      i := n;
      if e.Directory? {
        var base := PathOf(dir, e.name);
        var k := BelowSomeEntry(Some(base), e.entries, path);
        UnderParent(base, e.entries[k].name, path);
      }
    }
  }

  /** No path comes up twice in the enumeration, hence none in the listing. */
  lemma {:induction false} EachFileOnce(dir: Option<string>, entries: seq<Entry>, path: string)
    requires WellNamed(entries)
    ensures multiset(Enumerate(dir, entries))[path] <= 1
    decreases entries
  {
    if entries != [] {
      var n := |entries| - 1;
      var e, base := entries[n], PathOf(dir, entries[n].name);
      var last := if e.File? then [base] else Enumerate(Some(base), e.entries);
      EachFileOnce(dir, entries[..n], path);
      if e.Directory? {
        EachFileOnce(Some(base), e.entries, path);
      }
      assert Enumerate(dir, entries) == Enumerate(dir, entries[..n]) + last;
      if path in Enumerate(dir, entries[..n]) && path in last {
        var i := BelowSomeEntry(dir, entries[..n], path);
        LastIsUnder(dir, entries, path);
        OneNameOnly(dir, entries[i].name, e.name, path);
      }
    }
  }

  lemma LastIsUnder(dir: Option<string>, entries: seq<Entry>, path: string)
    requires entries != []
    requires var e, base := entries[|entries| - 1], PathOf(dir, entries[|entries| - 1].name);
      path in if e.File? then [base] else Enumerate(Some(base), e.entries)
    ensures Under(PathOf(dir, entries[|entries| - 1].name), path)
  {
    var e, base := entries[|entries| - 1], PathOf(dir, entries[|entries| - 1].name);
    if e.Directory? {
      var k := BelowSomeEntry(Some(base), e.entries, path);
      UnderParent(base, e.entries[k].name, path);
    }
  }

  // ---- what the paths are ------------------------------------------------

  /** There is a file below entries that is reached by these names. */
  ghost predicate Reaches(entries: seq<Entry>, names: seq<string>)
    decreases entries
  {
    names != [] && exists i :: 0 <= i < |entries| && entries[i].name == names[0] && StepsTo(entries[i], names)
  }

  ghost predicate StepsTo(e: Entry, names: seq<string>)
    requires names != []
    decreases e
  {
    match e
    case File(_) => |names| == 1
    case Directory(_, entries) => Reaches(entries, names[1..])
  }

  /** The names with a slash before each of them. */
  function Slashed(names: seq<string>): string {
    if names == [] then [] else ['/'] + names[0] + Slashed(names[1..])
  }

  /** At the top of the share there is no slash before the first name. */
  function Written(dir: Option<string>, names: seq<string>): string {
    if dir.Some? then dir.value + Slashed(names)
    else if names == [] then [] else names[0] + Slashed(names[1..])
  }

  lemma WrittenBelow(dir: Option<string>, names: seq<string>)
    requires names != []
    ensures Written(dir, names) == Written(Some(PathOf(dir, names[0])), names[1..])
    ensures |names| == 1 ==> Written(dir, names) == PathOf(dir, names[0])
  {
    if dir.Some? {
      assert dir.value + (['/'] + names[0] + Slashed(names[1..])) == dir.value + ['/'] + names[0] + Slashed(names[1..]);
    }
    if |names| == 1 {
      assert names[1..] == [];
      assert PathOf(dir, names[0]) + [] == PathOf(dir, names[0]);
    }
  }

  /** The entry e leads to a file of this path. */
  ghost predicate LeadsTo(dir: Option<string>, e: Entry, path: string) {
    exists names :: names != [] && names[0] == e.name && StepsTo(e, names) && path == Written(dir, names)
  }

  ghost predicate SomeLeadsTo(dir: Option<string>, entries: seq<Entry>, path: string) {
    exists names :: Reaches(entries, names) && path == Written(dir, names)
  }

  ghost predicate AnyLeads(dir: Option<string>, entries: seq<Entry>, path: string) {
    exists i :: 0 <= i < |entries| && LeadsTo(dir, entries[i], path)
  }

  lemma AnySnoc(dir: Option<string>, entries: seq<Entry>, path: string)
    requires entries != []
    ensures AnyLeads(dir, entries, path) <==>
      AnyLeads(dir, entries[..|entries| - 1], path) || LeadsTo(dir, entries[|entries| - 1], path)
  {
    var front := entries[..|entries| - 1];
    if i :| 0 <= i < |front| && LeadsTo(dir, front[i], path) {
      assert LeadsTo(dir, entries[i], path);
    }
    if i :| 0 <= i < |entries| && LeadsTo(dir, entries[i], path) {
      assert i < |front| ==> LeadsTo(dir, front[i], path);
    }
  }

  lemma SomeEntryLeads(dir: Option<string>, entries: seq<Entry>, path: string)
    ensures SomeLeadsTo(dir, entries, path) <==> AnyLeads(dir, entries, path)
  {
    if names :| Reaches(entries, names) && path == Written(dir, names) {
      var i :| 0 <= i < |entries| && entries[i].name == names[0] && StepsTo(entries[i], names);
      assert LeadsTo(dir, entries[i], path);
    }
    if i :| 0 <= i < |entries| && LeadsTo(dir, entries[i], path) {
      var names :| names != [] && names[0] == entries[i].name && StepsTo(entries[i], names) && path == Written(dir, names);
      assert Reaches(entries, names);
    }
  }

  /** What one entry adds to the enumeration. */
  function Added(dir: Option<string>, e: Entry): seq<string> {
    match e
    case File(name) => [PathOf(dir, name)]
    case Directory(name, sub) => Enumerate(Some(PathOf(dir, name)), sub)
  }

  /** A path is enumerated exactly if it is what leads to a file, written with slashes
      between the names and, below a directory, after it. */
  lemma {:induction false} PathsAreWritten(dir: Option<string>, entries: seq<Entry>, path: string)
    ensures path in Enumerate(dir, entries) <==> SomeLeadsTo(dir, entries, path)
    decreases entries
  {
    if entries != [] {
      var n := |entries| - 1;
      PathsAreWritten(dir, entries[..n], path);
      EntryPath(dir, entries[n], path);
      EnumerateSnoc(dir, entries, path);
      LeadsSnoc(dir, entries, path);
    }
  }

  lemma EnumerateSnoc(dir: Option<string>, entries: seq<Entry>, path: string)
    requires entries != []
    ensures path in Enumerate(dir, entries) <==>
      path in Enumerate(dir, entries[..|entries| - 1]) || path in Added(dir, entries[|entries| - 1])
  {
  }

  lemma LeadsSnoc(dir: Option<string>, entries: seq<Entry>, path: string)
    requires entries != []
    ensures SomeLeadsTo(dir, entries, path) <==>
      SomeLeadsTo(dir, entries[..|entries| - 1], path) || LeadsTo(dir, entries[|entries| - 1], path)
  {
    SomeEntryLeads(dir, entries, path);
    SomeEntryLeads(dir, entries[..|entries| - 1], path);
    AnySnoc(dir, entries, path);
  }

  lemma EntryPath(dir: Option<string>, e: Entry, path: string)
    ensures path in Added(dir, e) <==> LeadsTo(dir, e, path)
    decreases e
  {
    match e
    case File(name) => FilePath(dir, name, path);
    case Directory(name, sub) =>
      PathsAreWritten(Some(PathOf(dir, name)), sub, path);
      BelowDirectory(dir, name, sub, path);
  }

  lemma FilePath(dir: Option<string>, name: string, path: string)
    ensures path == PathOf(dir, name) <==> LeadsTo(dir, File(name), path)
  {
    WrittenBelow(dir, [name]);
    assert StepsTo(File(name), [name]);
    if names :| names != [] && names[0] == name && StepsTo(File(name), names) && path == Written(dir, names) {
      assert names == [name];
    }
  }

  lemma BelowDirectory(dir: Option<string>, name: string, sub: seq<Entry>, path: string)
    ensures SomeLeadsTo(Some(PathOf(dir, name)), sub, path) <==> LeadsTo(dir, Directory(name, sub), path)
  {
    var base, e := Some(PathOf(dir, name)), Directory(name, sub);
    if rest :| Reaches(sub, rest) && path == Written(base, rest) {
      var names := [name] + rest;
      assert names[1..] == rest;
      WrittenBelow(dir, names);
      assert StepsTo(e, names);
    }
    if names :| names != [] && names[0] == name && StepsTo(e, names) && path == Written(dir, names) {
      WrittenBelow(dir, names);
      assert Reaches(sub, names[1..]);
    }
  }

  // ---- the walk ----------------------------------------------------------

  lemma OnceEach(prefix: Option<string>, tree: seq<Entry>, out: multiset<string>)
    requires out == multiset(Enumerate(prefix, tree))
    ensures WellNamed(tree) ==> forall path :: out[path] <= 1
  {
    if WellNamed(tree) {
      forall path ensures out[path] <= 1 {
        EachFileOnce(prefix, tree, path);
      }
    }
  }

  /** _list_all_files_in_fileshare: the files are yielded in the order the stack
      brings up, but they are exactly those of the recursive enumeration. */
  method ListAllFiles(list: Listing, prefix: Option<string>, ghost tree: seq<Entry>) returns (out: seq<string>)
    requires Shows(list, prefix, tree)
    ensures multiset(out) == multiset(Enumerate(prefix, tree))
    ensures WellNamed(tree) ==> forall path :: multiset(out)[path] <= 1
  {
    out := [];
    var dirs := [prefix];
    ghost var stack := [Pending(prefix, tree)];
    Pushed([], stack[0]);
    assert [] + [stack[0]] == stack;
    while |dirs| > 0
      invariant Matches(list, dirs, stack)
      invariant multiset(out) + StillToYield(stack) == multiset(Enumerate(prefix, tree))
      decreases StillToList(stack)
    {
      var n := |dirs| - 1;
      var dir := dirs[n];
      ghost var entries := stack[n].entries;
      ghost var rest := stack[..n];
      var found;
      found, dirs, stack := ListDirectory(list, dir, entries, dirs[..n], rest);
      assert entries[..|entries|] == entries;
      MovedOver(multiset(out), multiset(found), StillToYield(rest), multiset(Enumerate(dir, entries)),
        StillToYield(stack), multiset(Enumerate(prefix, tree)));
      out := out + found;
    }
    OnceEach(prefix, tree, multiset(out));
  }
}
