/** A scan finds every file below a folder once, and fails exactly on a cycle. */
module FolderScanTheorems {
  import opened Wrappers
  import opened FolderScan

  // ----- Cycles -----

  predicate HasFolder(items: seq<Item>, id: string) {
    exists k | 0 <= k < |items| :: items[k].isDir && items[k].id == id
  }

  /** Folders each of which lists the next. */
  predicate Chain(folders: Folders, p: seq<string>) {
    p != [] && (|p| == 1 || (p[0] in folders && HasFolder(folders[p[0]], p[1]) && Chain(folders, p[1..])))
  }

  /** All folders exist, none repeats and none is among those above. */
  predicate Clean(folders: Folders, above: set<string>, p: seq<string>)
    decreases |p|
  {
    p == [] || (p[0] in folders && p[0] !in above && Clean(folders, above + {p[0]}, p[1..]))
  }

  lemma {:induction false} ItemsWalked(folders: Folders, above: set<string>, items: seq<Item>, prefix: string,
                                       remote: string, k: nat)
    requires WalkItems(folders, above, items, prefix, remote).Ok? && k < |items| && items[k].isDir
    ensures Walk(folders, above, items[k].id, Join(prefix, items[k].name), Join(remote, items[k].name)).Ok?
  {
    if k < |items| - 1 {
      ItemsWalked(folders, above, items[..|items| - 1], prefix, remote, k);
    }
  }

  /** A walk that succeeds has only clean chains below it. */
  lemma {:induction false} WalkedIsClean(folders: Folders, above: set<string>, p: seq<string>, prefix: string,
                                         remote: string)
    requires Chain(folders, p) && Walk(folders, above, p[0], prefix, remote).Ok?
    ensures Clean(folders, above, p)
    decreases |p|
  {
    if |p| > 1 {
      var items := folders[p[0]];
      var k :| 0 <= k < |items| && items[k].isDir && items[k].id == p[1];
      ItemsWalked(folders, above + {p[0]}, items, prefix, remote, k);
      WalkedIsClean(folders, above + {p[0]}, p[1..], Join(prefix, items[k].name), Join(remote, items[k].name));
    }
  }

  /** A walk that fails has a chain below it that is not clean. */
  lemma {:induction false} FailureHasChain(folders: Folders, above: set<string>, folder: string, prefix: string,
                                           remote: string)
    returns (p: seq<string>)
    requires Walk(folders, above, folder, prefix, remote).Err?
    ensures Chain(folders, p) && p[0] == folder && !Clean(folders, above, p)
    decreases |folders.Keys - above|, 0
  {
    if folder in above || folder !in folders {
      p := [folder];
    } else {
      SmallerSet(folders.Keys - (above + {folder}), folders.Keys - above);
      var k, tail := ItemFails(folders, above + {folder}, folders[folder], prefix, remote);
      p := [folder] + tail;
      assert p[1..] == tail;
      assert HasFolder(folders[folder], tail[0]);
    }
  }

  lemma {:induction false} ItemFails(folders: Folders, above: set<string>, items: seq<Item>, prefix: string,
                                     remote: string)
    returns (k: nat, p: seq<string>)
    requires WalkItems(folders, above, items, prefix, remote).Err?
    ensures k < |items| && items[k].isDir
    ensures Chain(folders, p) && p[0] == items[k].id && !Clean(folders, above, p)
    decreases |folders.Keys - above|, 1 + |items|
  {
    var last := |items| - 1;
    if WalkItems(folders, above, items[..last], prefix, remote).Err? {
      k, p := ItemFails(folders, above, items[..last], prefix, remote);
    } else {
      k := last;
      p := FailureHasChain(folders, above, items[last].id, Join(prefix, items[last].name),
                           Join(remote, items[last].name));
    }
  }

  /** Every chain from a folder is clean. */
  ghost predicate Acyclic(folders: Folders, folder: string) {
    forall p | Chain(folders, p) && p[0] == folder :: Clean(folders, {}, p)
  }

  /** On any finite graph of folders the walk succeeds exactly when no folder is reached from itself or missing. */
  lemma SucceedsIffAcyclic(folders: Folders, folder: string, prefix: string, remote: string)
    ensures Walk(folders, {}, folder, prefix, remote).Ok? <==> Acyclic(folders, folder)
  {
    if Walk(folders, {}, folder, prefix, remote).Ok? {
      forall p | Chain(folders, p) && p[0] == folder ensures Clean(folders, {}, p) {
        WalkedIsClean(folders, {}, p, prefix, remote);
      }
    } else {
      var p := FailureHasChain(folders, {}, folder, prefix, remote);
    }
  }

  // ----- Completeness -----

  /** The positions to take from a folder down to a file. */
  type Route = seq<nat>

  predicate Starts(folders: Folders, items: seq<Item>, r: Route)
    decreases |r|
  {
    && r != [] && r[0] < |items|
    && var item := items[r[0]];
    if |r| == 1 then !item.isDir else item.isDir && item.id in folders && Starts(folders, folders[item.id], r[1..])
  }

  /** The file at the end of a route, with the names on the way joined. */
  function FileAt(folders: Folders, items: seq<Item>, prefix: string, remote: string, r: Route): File
    requires Starts(folders, items, r)
    decreases |r|
  {
    var item := items[r[0]];
    if |r| == 1 then FileOf(item, prefix, remote)
    else FileAt(folders, folders[item.id], Join(prefix, item.name), Join(remote, item.name), r[1..])
  }

  /** The routes lead to the files one by one, and there are no others. */
  ghost predicate Enumerates(folders: Folders, items: seq<Item>, prefix: string, remote: string, files: seq<File>,
                             routes: seq<Route>) {
    && |routes| == |files|
    && (forall i | 0 <= i < |files| ::
        Starts(folders, items, routes[i]) && files[i] == FileAt(folders, items, prefix, remote, routes[i]))
    && (forall i, j | 0 <= i < j < |files| :: routes[i] != routes[j])
    && (forall r | Starts(folders, items, r) :: r in routes)
  }

  lemma {:induction false} FolderEnumerated(folders: Folders, above: set<string>, folder: string, prefix: string,
                                            remote: string)
    returns (routes: seq<Route>)
    requires Walk(folders, above, folder, prefix, remote).Ok?
    ensures folder in folders
    ensures Enumerates(folders, folders[folder], prefix, remote, Walk(folders, above, folder, prefix, remote).value,
                       routes)
    decreases |folders.Keys - above|, 0
  {
    SmallerSet(folders.Keys - (above + {folder}), folders.Keys - above);
    routes := ItemsEnumerated(folders, above + {folder}, folders[folder], prefix, remote);
  }

  lemma {:induction false} ItemsEnumerated(folders: Folders, above: set<string>, items: seq<Item>, prefix: string,
                                           remote: string)
    returns (routes: seq<Route>)
    requires WalkItems(folders, above, items, prefix, remote).Ok?
    ensures Enumerates(folders, items, prefix, remote, WalkItems(folders, above, items, prefix, remote).value, routes)
    decreases |folders.Keys - above|, 1 + |items|
  {
    if items == [] {
      routes := [];
    } else {
      var last := |items| - 1;
      var item := items[last];
      var files := WalkItems(folders, above, items[..last], prefix, remote).value;
      var before := ItemsEnumerated(folders, above, items[..last], prefix, remote);
      if item.isDir {
        var path, remotePath := Join(prefix, item.name), Join(remote, item.name);
        var below := FolderEnumerated(folders, above, item.id, path, remotePath);
        routes := before + Prefixed(last, below);
        FolderAppends(folders, items, prefix, remote, files, before,
                      Walk(folders, above, item.id, path, remotePath).value, below);
      } else {
        routes := before + [[last]];
        FileAppends(folders, items, prefix, remote, files, before);
      }
    }
  }

  function Prefixed(n: nat, routes: seq<Route>): seq<Route> {
    seq(|routes|, i requires 0 <= i < |routes| => [n] + routes[i])
  }

  /** Routes into all items but the last are routes into the items before it. */
  lemma StartsBefore(folders: Folders, items: seq<Item>, r: Route)
    requires items != []
    ensures r != [] && r[0] < |items| - 1 ==> (Starts(folders, items, r) <==> Starts(folders, items[..|items| - 1], r))
    ensures Starts(folders, items[..|items| - 1], r) ==> r[0] < |items| - 1
  {
  }

  lemma SameFileBefore(folders: Folders, items: seq<Item>, prefix: string, remote: string, r: Route)
    requires items != [] && Starts(folders, items[..|items| - 1], r) && Starts(folders, items, r)
    ensures FileAt(folders, items, prefix, remote, r) == FileAt(folders, items[..|items| - 1], prefix, remote, r)
  {
  }

  lemma FileAppends(folders: Folders, items: seq<Item>, prefix: string, remote: string, files: seq<File>,
                    before: seq<Route>)
    requires items != [] && !items[|items| - 1].isDir
    requires Enumerates(folders, items[..|items| - 1], prefix, remote, files, before)
    ensures var item := items[|items| - 1];
            Enumerates(folders, items, prefix, remote,
                       files + [FileOf(item, prefix, remote)],
                       before + [[|items| - 1]])
  {
    var last := |items| - 1;
    var routes := before + [[last]];
    forall i | 0 <= i < |before|
      ensures Starts(folders, items, routes[i]) && files[i] == FileAt(folders, items, prefix, remote, routes[i])
              && routes[i] != [last]
    {
      StartsBefore(folders, items, routes[i]);
      SameFileBefore(folders, items, prefix, remote, routes[i]);
    }
    forall r | Starts(folders, items, r) ensures r in routes {
      StartsBefore(folders, items, r);
      if r[0] == last {
        assert r == [last];
        assert routes[|before|] == r;
      }
    }
  }

  lemma RouteBelow(folders: Folders, items: seq<Item>, prefix: string, remote: string, r: Route)
    requires items != [] && items[|items| - 1].isDir && items[|items| - 1].id in folders
    requires Starts(folders, folders[items[|items| - 1].id], r)
    ensures var item := items[|items| - 1];
            var longer := [|items| - 1] + r;
            && longer[1..] == r && Starts(folders, items, longer)
            && FileAt(folders, items, prefix, remote, longer)
            == FileAt(folders, folders[item.id], Join(prefix, item.name), Join(remote, item.name), r)
  {
    assert ([|items| - 1] + r)[1..] == r;
  }

  lemma FolderAppends(folders: Folders, items: seq<Item>, prefix: string, remote: string, files: seq<File>,
                      before: seq<Route>,
                      more: seq<File>, below: seq<Route>)
    requires items != [] && items[|items| - 1].isDir && items[|items| - 1].id in folders
    requires Enumerates(folders, items[..|items| - 1], prefix, remote, files, before)
    requires var item := items[|items| - 1];
             Enumerates(folders, folders[item.id], Join(prefix, item.name), Join(remote, item.name), more, below)
    ensures Enumerates(folders, items, prefix, remote, files + more, before + Prefixed(|items| - 1, below))
  {
    hide Join;
    var last := |items| - 1;
    var item := items[last];
    var routes, all := before + Prefixed(last, below), files + more;
    forall i | 0 <= i < |before|
      ensures Starts(folders, items, routes[i]) && all[i] == FileAt(folders, items, prefix, remote, routes[i])
              && routes[i][0] < last
    {
      StartsBefore(folders, items, routes[i]);
      SameFileBefore(folders, items, prefix, remote, routes[i]);
    }
    forall i | |before| <= i < |routes|
      ensures Starts(folders, items, routes[i]) && all[i] == FileAt(folders, items, prefix, remote, routes[i])
      ensures routes[i][0] == last && routes[i][1..] == below[i - |before|]
    {
      RouteBelow(folders, items, prefix, remote, below[i - |before|]);
    }
    forall r | Starts(folders, items, r) ensures r in routes {
      StartsBefore(folders, items, r);
      if r[0] == last {
        assert r == [last] + r[1..];
        assert Starts(folders, folders[item.id], r[1..]);
        var k :| 0 <= k < |below| && below[k] == r[1..];
        assert routes[|before| + k] == r;
      }
    }
    forall i, j | 0 <= i < j < |routes| ensures routes[i] != routes[j] {
      if |before| <= i {
        assert below[i - |before|] != below[j - |before|];
      }
    }
  }

  /** A scan that succeeds finds exactly one file per route, with the names on the route joined. */
  lemma ScanIsComplete(folders: Folders, folder: string, remote: string) returns (routes: seq<Route>)
    requires Acyclic(folders, folder)
    ensures Walk(folders, {}, folder, "", remote).Ok? && folder in folders
    ensures Enumerates(folders, folders[folder], "", remote, Walk(folders, {}, folder, "", remote).value, routes)
  {
    SucceedsIffAcyclic(folders, folder, "", remote);
    routes := FolderEnumerated(folders, {}, folder, "", remote);
  }

  // ----- Names -----

  /** The names on the way, from the folder's items down to the file. */
  function NamesOn(folders: Folders, items: seq<Item>, r: Route): seq<string>
    requires Starts(folders, items, r)
    decreases |r|
  {
    var item := items[r[0]];
    if |r| == 1 then [item.name] else [item.name] + NamesOn(folders, folders[item.id], r[1..])
  }

  function Slashed(names: seq<string>): string
    decreases |names|
  {
    if names == [] then "" else "/" + names[0] + Slashed(names[1..])
  }

  lemma SlashedFirst(name: string, names: seq<string>)
    ensures Slashed([name] + names) == "/" + name + Slashed(names)
    ensures Slashed([name]) == "/" + name
  {
    assert ([name] + names)[1..] == names && [name][1..] == [];
  }

  lemma Regroup(a: string, b: string, c: string)
    ensures a + "/" + b + c == a + ("/" + b + c) && a + "/" + b == a + ("/" + b)
  {
  }

  /** One step down a route. */
  lemma StepDown(folders: Folders, items: seq<Item>, prefix: string, remote: string, r: Route)
    requires Starts(folders, items, r)
    ensures var item := items[r[0]];
            if |r| == 1
            then NamesOn(folders, items, r) == [item.name]
                 && FileAt(folders, items, prefix, remote, r) == FileOf(item, prefix, remote)
            else
              && item.id in folders && Starts(folders, folders[item.id], r[1..])
              && NamesOn(folders, items, r) == [item.name] + NamesOn(folders, folders[item.id], r[1..])
              && FileAt(folders, items, prefix, remote, r) ==
                 FileAt(folders, folders[item.id], Join(prefix, item.name), Join(remote, item.name), r[1..])
  {
    hide FileOf, Join;
  }

  /** What follows a prefix in a path are the names on the route, each after a slash. */
  lemma {:induction false} PathHasNames(folders: Folders, items: seq<Item>, prefix: string, remote: string, r: Route)
    requires Starts(folders, items, r) && prefix != "" && remote != ""
    ensures var file := FileAt(folders, items, prefix, remote, r);
            && file.path == prefix + Slashed(NamesOn(folders, items, r))
            && file.remotePath == "/" + WithoutSlashes(remote + Slashed(NamesOn(folders, items, r)))
    decreases |r|
  {
    var item := items[r[0]];
    StepDown(folders, items, prefix, remote, r);
    hide Slashed, NamesOn, FileAt, WithoutSlashes, Starts;
    var rest := if |r| == 1 then [] else NamesOn(folders, folders[item.id], r[1..]);
    SlashedFirst(item.name, rest);
    Regroup(prefix, item.name, Slashed(rest));
    Regroup(remote, item.name, Slashed(rest));
    if |r| > 1 {
      PathHasNames(folders, folders[item.id], Join(prefix, item.name), Join(remote, item.name), r[1..]);
    }
  }

  /** In a whole scan a path is the names on the route with slashes between them, and the item is the one there. */
  lemma ScannedPath(folders: Folders, items: seq<Item>, remote: string, r: Route)
    requires Starts(folders, items, r) && remote != "" && items[r[0]].name != ""
    ensures var file := FileAt(folders, items, "", remote, r);
            && "/" + file.path == Slashed(NamesOn(folders, items, r))
            && file.remotePath == "/" + WithoutSlashes(remote + Slashed(NamesOn(folders, items, r)))
            && file.item == ItemAt(folders, items, r)
  {
    var item := items[r[0]];
    ItemsAgree(folders, items, "", remote, r);
    StepDown(folders, items, "", remote, r);
    hide Slashed, NamesOn, FileAt, WithoutSlashes, Starts, ItemAt;
    var rest := if |r| == 1 then [] else NamesOn(folders, folders[item.id], r[1..]);
    SlashedFirst(item.name, rest);
    Regroup(remote, item.name, Slashed(rest));
    if |r| > 1 {
      PathHasNames(folders, folders[item.id], item.name, Join(remote, item.name), r[1..]);
    }
  }

  function ItemAt(folders: Folders, items: seq<Item>, r: Route): Item
    requires Starts(folders, items, r)
    decreases |r|
  {
    if |r| == 1 then items[r[0]] else ItemAt(folders, folders[items[r[0]].id], r[1..])
  }

  lemma {:induction false} ItemsAgree(folders: Folders, items: seq<Item>, prefix: string, remote: string, r: Route)
    requires Starts(folders, items, r)
    ensures FileAt(folders, items, prefix, remote, r).item == ItemAt(folders, items, r)
    decreases |r|
  {
    if |r| > 1 {
      var item := items[r[0]];
      ItemsAgree(folders, folders[item.id], Join(prefix, item.name), Join(remote, item.name), r[1..]);
    }
  }

  /** All slashes at the front go, and nothing else. */
  lemma {:induction false} WithoutSlashesMeans(path: string) returns (n: nat)
    ensures n <= |path| && WithoutSlashes(path) == path[n..] && (n < |path| ==> path[n] != '/')
    ensures forall i | 0 <= i < n :: path[i] == '/'
  {
    n := 0;
    if path != "" && path[0] == '/' {
      var m := WithoutSlashesMeans(path[1..]);
      n := m + 1;
      forall i | 0 <= i < n ensures path[i] == '/' {
        assert i > 0 ==> path[i] == path[1..][i - 1];
      }
    }
  }
}
