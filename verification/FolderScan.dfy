/**
 Scanning the folder of a finished download (internal/ingest/service.go). The provider lists a
 folder page by page; how long a page is, and whether a request fails, is up to the provider.
 */
module FolderScan {
  import opened Texts
  import opened Wrappers

  datatype Item = Item(id: string, name: string, isDir: bool, sha1: string, sizeBytes: int)

  datatype File = File(path: string, remotePath: string, item: Item)

  type Folders = map<string, seq<Item>>

  datatype ScanError = ProviderFailed | Cycle(folder: string) | NoSuchFolder(folder: string)

  /** path.Join on ordinary names. */
  function Join(prefix: string, name: string): string {
    if prefix == "" then name else prefix + "/" + name
  }

  function WithoutSlashes(path: string): string {
    if path != "" && path[0] == '/' then WithoutSlashes(path[1..]) else path
  }

  /** The remote path is absolute. */
  function FileOf(item: Item, prefix: string, remote: string): File {
    File(Join(prefix, item.name), "/" + WithoutSlashes(Join(remote, item.name)), item)
  }

  // ----- The walk without requests -----

  function Walk(folders: Folders, above: set<string>, folder: string, prefix: string, remote: string):
    Result<seq<File>, ScanError>
    decreases |folders.Keys - above|, 0
  {
    if folder in above then Err(Cycle(folder))
    else if folder !in folders then Err(NoSuchFolder(folder))
    else
      assert folders.Keys - (above + {folder}) < folders.Keys - above;
      SmallerSet(folders.Keys - (above + {folder}), folders.Keys - above);
      WalkItems(folders, above + {folder}, folders[folder], prefix, remote)
  }

  function WalkItems(folders: Folders, above: set<string>, items: seq<Item>, prefix: string, remote: string):
    Result<seq<File>, ScanError>
    decreases |folders.Keys - above|, 1 + |items|
  {
    if items == [] then Ok([])
    else
      var item := items[|items| - 1];
      match WalkItems(folders, above, items[..|items| - 1], prefix, remote)
      case Err(e) => Err(e)
      case Ok(files) =>
        if !item.isDir then Ok(files + [FileOf(item, prefix, remote)])
        else
          match Walk(folders, above, item.id, Join(prefix, item.name), Join(remote, item.name))
          case Err(e) => Err(e)
          case Ok(children) => Ok(files + children)
  }

  lemma SmallerSet<T>(a: set<T>, b: set<T>)
    requires a < b
    ensures |a| < |b|
  {
    var x :| x in b && x !in a;
    assert a <= b - {x};
    if a != b - {x} {
      SmallerSet(a, b - {x});
    }
  }

  // ----- The scanner -----

  /** The items from an offset on; none only at the end. */
  predicate IsPage(items: seq<Item>, offset: nat, page: seq<Item>) {
    && offset + |page| <= |items| && |page| <= 1000
    && items[offset..offset + |page|] == page
    && (offset < |items| ==> page != [])
  }

  ghost function Front(items: seq<Item>, n: nat): seq<Item>
    requires n <= |items|
  {
    items[..n]
  }

  lemma PageAppends(items: seq<Item>, offset: nat, page: seq<Item>)
    requires IsPage(items, offset, page)
    ensures offset + |page| <= |items| && Front(items, offset + |page|) == Front(items, offset) + page
    ensures page == [] ==> offset == |items|
  {
  }

  class Provider {
    const folders: Folders

    constructor (folders: Folders)
      ensures this.folders == folders
    {
      this.folders := folders;
    }

    /** A page of at least one item unless the folder ends there, and the folder's item count. */
    method ListFolder(folder: string, offset: nat) returns (r: Result<(seq<Item>, nat), ScanError>)
      ensures folder !in folders ==> r.Err?
      ensures r.Err? ==> r.error == if folder in folders then ProviderFailed else NoSuchFolder(folder)
      ensures r.Ok? && offset <= |folders[folder]| ==>
                && r.value.1 == |folders[folder]| && IsPage(folders[folder], offset, r.value.0)
    {
      if folder !in folders {
        return Err(NoSuchFolder(folder));
      }
      var items := folders[folder];
      var failed: bool := *;
      if failed {
        return Err(ProviderFailed);
      }
      var size: int := *;
      size := if size < 1 then 1 else if size > 1000 then 1000 else size;
      if offset >= |items| {
        return Ok(([], |items|));
      }
      var end := if offset + size < |items| then offset + size else |items|;
      r := Ok((items[offset..end], |items|));
    }
  }

  class Scanner {
    const provider: Provider
    var visited: set<string>
    /** The files that have been handed to onFile. */
    var seen: seq<File>

    constructor (provider: Provider)
      ensures this.provider == provider && visited == {} && seen == []
    {
      this.provider := provider;
      visited, seen := {}, [];
    }

    method ScanFolder(folder: string, prefix: string, remote: string) returns (r: Result<seq<File>, ScanError>)
      modifies this
      ensures r == Err(ProviderFailed) || r == Walk(provider.folders, old(visited), folder, prefix, remote)
      ensures visited == old(visited)
      ensures r.Ok? ==> seen == old(seen) + r.value
      decreases |provider.folders.Keys - visited|, 1
    {
      if folder in visited {
        return Err(Cycle(folder));
      }
      ghost var above := visited;
      visited := visited + {folder};
      if folder in provider.folders {
        SmallerSet(provider.folders.Keys - visited, provider.folders.Keys - above);
      } else {
        assert provider.folders.Keys - visited == provider.folders.Keys - above;
      }
      r := ScanPages(folder, prefix, remote);
      visited := visited - {folder};
    }

    /** The loop over the pages of a folder that has just been marked. */
    method ScanPages(folder: string, prefix: string, remote: string) returns (r: Result<seq<File>, ScanError>)
      requires folder in visited
      modifies this
      ensures r == Err(ProviderFailed)
           || r == if folder in provider.folders
                   then WalkItems(provider.folders, old(visited), provider.folders[folder], prefix, remote)
                   else Err(NoSuchFolder(folder))
      ensures visited == old(visited)
      ensures r.Ok? ==> seen == old(seen) + r.value
      decreases |provider.folders.Keys - visited|, if folder in provider.folders then 3 else 0
    {
      hide Walk, WalkItems, IsPage, Front;
      var files: seq<File> := [];
      var offset := 0;
      var page := provider.ListFolder(folder, 0);
      if page.Err? {
        return Err(page.error);
      }
      ghost var above, start, folders := visited, seen, provider.folders;
      ghost var items := folders[folder];
      WalkNothing(folders, above, items, prefix, remote);
      assert start + files == start;
      var (list, count) := page.value;
      while true
        invariant visited == above && count == |items| && offset <= count
        invariant IsPage(items, offset, list)
        invariant WalkItems(folders, above, Front(items, offset), prefix, remote) == Ok(files)
        invariant seen == start + files
        decreases |items| - offset
      {
        PageAppends(items, offset, list);
        var batch := ScanPage(list, prefix, remote, Front(items, offset), files);
        if batch.Err? {
          PageStops(folders, above, items, offset, list, prefix, remote);
          return batch;
        }
        Regroup(start, files, batch.value);
        files := files + batch.value;
        offset := offset + |list|;
        if |list| == 0 || offset >= count {
          break;
        }
        page := provider.ListFolder(folder, offset);
        if page.Err? {
          return Err(page.error);
        }
        list, count := page.value.0, page.value.1;
      }
      r := Ok(files);
    }

    /** The loop over one page; before are the files of the pages that are done. */
    method ScanPage(page: seq<Item>, prefix: string, remote: string, ghost done: seq<Item>, ghost before: seq<File>)
      returns (r: Result<seq<File>, ScanError>)
      requires WalkItems(provider.folders, visited, done, prefix, remote) == Ok(before)
      modifies this
      ensures visited == old(visited)
      ensures r.Ok? ==> WalkItems(provider.folders, old(visited), done + page, prefix, remote) == Ok(before + r.value)
                        && seen == old(seen) + r.value
      ensures r.Err? ==>
                || r == Err(ProviderFailed)
                || r == WalkItems(provider.folders, old(visited), done + page, prefix, remote)
      decreases |provider.folders.Keys - visited|, 2
    {
      hide Walk, WalkItems;
      ghost var above, start, folders := visited, seen, provider.folders;
      var files: seq<File> := [];
      assert done + page[..0] == done && before + files == before;
      var i := 0;
      while i < |page|
        invariant 0 <= i <= |page| && visited == above
        invariant WalkItems(folders, above, done + page[..i], prefix, remote) == Ok(before + files)
        invariant seen == start + files
      {
        var item := page[i];
        ItemStep(folders, above, done + page[..i], item, prefix, remote, before + files);
        OneMore(done, page, i);
        if item.isDir {
          var children := ScanFolder(item.id, Join(prefix, item.name), Join(remote, item.name));
          if children.Err? {
            WalkStops(folders, above, done + page, |done| + i + 1, prefix, remote);
            return children;
          }
          Regroup(before, files, children.value);
          Regroup(start, files, children.value);
          files := files + children.value;
        } else {
          var file := FileOf(item, prefix, remote);
          Regroup(before, files, [file]);
          Regroup(start, files, [file]);
          files := files + [file];
          seen := seen + [file];
        }
        i := i + 1;
      }
      assert page[..i] == page;
      r := Ok(files);
    }

    /** The scan of a result: one file, or everything below a folder, sorted by path. */
    method ScanResult(root: Item, rootPath: string) returns (r: Result<seq<File>, ScanError>)
      requires visited == {}
      modifies this
      ensures visited == {}
      ensures !root.isDir ==> r == Ok([File(root.name, rootPath, root)])
      ensures root.isDir ==>
                match Walk(provider.folders, {}, root.id, "", rootPath)
                case Err(e) => r == Err(ProviderFailed) || r == Err(e)
                case Ok(files) => r == Err(ProviderFailed) || (r.Ok? && multiset(r.value) == multiset(files))
      ensures r.Ok? ==>
                && SortedByPath(r.value)
                && exists order :: seen == old(seen) + order && multiset(order) == multiset(r.value)
    {
      if !root.isDir {
        var file := File(root.name, rootPath, root);
        seen := seen + [file];
        return Ok([file]);
      }
      r := ScanFolder(root.id, "", rootPath);
      if r.Ok? {
        SortPermutes(r.value);
        SortSorts(r.value);
        r := Ok(Sort(r.value));
      }
    }
  }

  // ----- Sorting by path -----

  predicate SortedByPath(files: seq<File>) {
    forall i, j | 0 <= i < j < |files| :: AtMost(files[i].path, files[j].path)
  }

  function Insert(files: seq<File>, file: File): seq<File> {
    if files == [] || !AtMost(file.path, files[|files| - 1].path) then files + [file]
    else Insert(files[..|files| - 1], file) + [files[|files| - 1]]
  }

  function Sort(files: seq<File>): seq<File> {
    if files == [] then [] else Insert(Sort(files[..|files| - 1]), files[|files| - 1])
  }

  lemma {:induction false} InsertAdds(files: seq<File>, file: File)
    ensures multiset(Insert(files, file)) == multiset(files) + multiset{file}
  {
    if files != [] {
      assert files == files[..|files| - 1] + [files[|files| - 1]];
      InsertAdds(files[..|files| - 1], file);
    }
  }

  lemma {:induction false} InsertSorts(files: seq<File>, file: File)
    requires SortedByPath(files)
    ensures SortedByPath(Insert(files, file))
  {
    hide AtMost;
    if files != [] {
      var last := |files| - 1;
      AtMostTotal(file.path, files[last].path);
      if AtMost(file.path, files[last].path) {
        InsertSorts(files[..last], file);
        InsertAdds(files[..last], file);
        forall x | x in Insert(files[..last], file) ensures AtMost(x.path, files[last].path) {
          assert x in multiset(files[..last]) + multiset{file};
        }
      } else {
        forall i | 0 <= i < last ensures AtMost(files[i].path, file.path) {
          AtMostTransitive(files[i].path, files[last].path, file.path);
        }
      }
    }
  }

  lemma {:induction false} SortPermutes(files: seq<File>)
    ensures multiset(Sort(files)) == multiset(files)
  {
    if files != [] {
      var before, file := files[..|files| - 1], files[|files| - 1];
      assert files == before + [file];
      SortPermutes(before);
      InsertAdds(Sort(before), file);
      assert Sort(files) == Insert(Sort(before), file);
      hide Sort, Insert;
    }
  }

  lemma {:induction false} SortSorts(files: seq<File>)
    ensures SortedByPath(Sort(files))
  {
    if files != [] {
      SortSorts(files[..|files| - 1]);
      InsertSorts(Sort(files[..|files| - 1]), files[|files| - 1]);
    }
  }

  lemma Regroup(a: seq<File>, b: seq<File>, c: seq<File>)
    ensures a + b + c == a + (b + c)
  {
  }

  lemma WalkNothing(folders: Folders, above: set<string>, items: seq<Item>, prefix: string, remote: string)
    ensures WalkItems(folders, above, Front(items, 0), prefix, remote) == Ok([])
    ensures Front(items, |items|) == items
  {
  }

  lemma PageStops(folders: Folders, above: set<string>, items: seq<Item>, offset: nat, page: seq<Item>,
                  prefix: string, remote: string)
    requires IsPage(items, offset, page)
    ensures var part := WalkItems(folders, above, Front(items, offset) + page, prefix, remote);
            part.Err? ==> WalkItems(folders, above, items, prefix, remote) == part
  {
    PageAppends(items, offset, page);
    WalkStops(folders, above, items, offset + |page|, prefix, remote);
  }

  lemma OneMore(done: seq<Item>, page: seq<Item>, i: nat)
    requires i < |page|
    ensures done + page[..i] + [page[i]] == done + page[..i + 1] == (done + page)[..|done| + i + 1]
  {
  }

  lemma ItemStep(folders: Folders, above: set<string>, items: seq<Item>, item: Item, prefix: string, remote: string,
                 files: seq<File>)
    requires WalkItems(folders, above, items, prefix, remote) == Ok(files)
    ensures WalkItems(folders, above, items + [item], prefix, remote) ==
            if !item.isDir then Ok(files + [FileOf(item, prefix, remote)])
            else match Walk(folders, above, item.id, Join(prefix, item.name), Join(remote, item.name))
                 case Err(e) => Err(e)
                 case Ok(children) => Ok(files + children)
  {
    assert (items + [item])[..|items|] == items;
  }

  lemma {:induction false} WalkStops(folders: Folders, above: set<string>, items: seq<Item>, n: nat, prefix: string,
                                     remote: string)
    requires n <= |items|
    ensures var part := WalkItems(folders, above, items[..n], prefix, remote);
            part.Err? ==> WalkItems(folders, above, items, prefix, remote) == part
    decreases |items|
  {
    if n == |items| {
      assert items[..n] == items;
    } else {
      var shorter := items[..|items| - 1];
      assert shorter[..n] == items[..n];
      WalkStops(folders, above, shorter, n, prefix, remote);
    }
  }
}
