/**
 The tree that PROPFIND shows (section 9.1 of RFC 4918): its hrefs, how they are parsed
 (internal/transport/webdav/handler.go) and what is listed below them
 (internal/storage/sqlite/materialize.go).
 */
module DavNamespace {
  import opened Texts
  import opened Wrappers
  import opened Catalogue

  const DAV_ROOT := "/dav"
  const OBJECTS_ROOT := "/dav/objects"

  datatype Resource =
    | DavRoot
    | ObjectsRoot
    | FirstBucket(prefix: string)
    | SecondBucket(prefix: string)
    | Object(sha1: string, href: string)

  // ----- Strings -----

  function IndexOf(s: string, c: char): (i: nat)
    ensures i <= |s| && c !in s[..i] && (i < |s| ==> s[i] == c)
  {
    if s == "" || s[0] == c then 0 else IndexOf(s[1..], c) + 1
  }

  function Split(s: string): seq<string>
    decreases |s|
  {
    var i := IndexOf(s, '/');
    if i == |s| then [s] else [s[..i]] + Split(s[i + 1..])
  }

  lemma IndexOfUnique(s: string, c: char, i: nat)
    requires i < |s| && s[i] == c && c !in s[..i]
    ensures IndexOf(s, c) == i
  {
    var j := IndexOf(s, c);
    assert forall k | 0 <= k < i :: s[k] in s[..i];
    assert forall k | 0 <= k < j :: s[k] in s[..j];
  }

  lemma SplitSegment(a: string, b: string)
    requires '/' !in a
    ensures Split(a + "/" + b) == [a] + Split(b)
  {
    var s := a + "/" + b;
    assert s[..|a|] == a && s[|a| + 1..] == b;
    IndexOfUnique(s, '/', |a|);
  }

  lemma SplitLast(a: string)
    requires '/' !in a
    ensures Split(a) == [a]
  {
  }

  predicate IsHexDigit(c: char) {
    '0' <= c <= '9' || 'a' <= c <= 'f'
  }

  /** validHex: lower case only. */
  predicate IsHex(s: string, length: nat) {
    |s| == length && forall c | c in s :: IsHexDigit(c)
  }

  function TrimSlash(s: string): string {
    if s != "" && s[|s| - 1] == '/' then s[..|s| - 1] else s
  }

  // ----- Parsing -----

  function ParseSegments(segments: seq<string>, clean: string): Option<Resource> {
    if |segments| == 1 && IsHex(segments[0], 2) then Some(FirstBucket(segments[0]))
    else if |segments| == 2 && IsHex(segments[0], 2) && IsHex(segments[1], 2) then
      Some(SecondBucket(segments[0] + segments[1]))
    else if |segments| == 3 && IsHex(segments[0], 2) && IsHex(segments[1], 2) then
      var dot := IndexOf(segments[2], '.');
      var sha1 := segments[2][..dot];
      if dot < |segments[2]| - 1 && IsHex(sha1, 40) && sha1[..2] == segments[0] && sha1[2..4] == segments[1]
      then Some(Object(sha1, clean)) else None
    else None
  }

  function ParseResource(value: string): Option<Resource> {
    var clean := TrimSlash(value);
    if clean == DAV_ROOT then Some(DavRoot)
    else if clean == OBJECTS_ROOT then Some(ObjectsRoot)
    else if OBJECTS_ROOT + "/" <= clean then ParseSegments(Split(clean[|OBJECTS_ROOT| + 1..]), clean)
    else None
  }

  // ----- Hrefs -----

  /** path.Ext: from the last dot of the last path element. */
  function Ext(name: string): (e: string)
    ensures e != "" ==> e[0] == '.' && '.' !in e[1..] && '/' !in e
    ensures e == "." <==> name != "" && name[|name| - 1] == '.'
  {
    if name == "" || name[|name| - 1] == '/' then ""
    else if name[|name| - 1] == '.' then "."
    else
      var e := Ext(name[..|name| - 1]);
      if e == "" then "" else e + [name[|name| - 1]]
  }

  function Extension(name: string): string {
    var e := Lower(Ext(name));
    if e == "" then ".bin" else e
  }

  function ObjectHref(sha1: string, name: string): string
    requires |sha1| == 40
  {
    OBJECTS_ROOT + "/" + (sha1[..2] + "/" + (sha1[2..4] + "/" + (sha1 + Extension(name))))
  }

  function DavHref(): string {
    DAV_ROOT + "/"
  }

  function ObjectsHref(): string {
    OBJECTS_ROOT + "/"
  }

  function FirstHref(prefix: string): string {
    OBJECTS_ROOT + "/" + prefix + "/"
  }

  function SecondHref(prefix: string): string
    requires |prefix| == 4
  {
    OBJECTS_ROOT + "/" + (prefix[..2] + "/" + prefix[2..]) + "/"
  }

  /** The path that a redirect to this server appends to its base. */
  function StableObjectPath(sha1: string, name: string): string
    requires |sha1| == 40
  {
    "objects" + "/" + sha1[..2] + "/" + sha1[2..4] + "/" + (sha1 + Extension(name))
  }

  lemma StablePathIsHref(sha1: string, name: string)
    requires |sha1| == 40
    ensures "/dav/" + StableObjectPath(sha1, name) == ObjectHref(sha1, name)
  {
    hide Extension;
    assert "/dav/" + "objects" == OBJECTS_ROOT;
    Regroup("/dav/", "objects", "/", sha1[..2], sha1[2..4], sha1 + Extension(name));
  }

  lemma Regroup(p: string, q: string, slash: string, a: string, b: string, c: string)
    ensures p + (q + slash + a + slash + b + slash + c) == (p + q) + slash + (a + slash + (b + slash + c))
  {
  }

  lemma {:induction false} ExtensionMeans(name: string)
    ensures var e := Extension(name);
            |e| >= 1 && e[0] == '.' && '.' !in e[1..] && '/' !in e
    ensures |Extension(name)| == 1 <==> name != "" && name[|name| - 1] == '.'
  {
    var e := Ext(name);
    var l := Lower(e);
    forall c | c in l ensures c != '/' {
      var i :| 0 <= i < |l| && l[i] == c;
      assert e[i] in e && l[i] == LowerChar(e[i]);
    }
    if e != "" {
      forall i | 1 <= i < |l| ensures l[i] != '.' {
        assert e[1..][i - 1] in e[1..];
        assert l[i] == LowerChar(e[i]);
      }
      forall c | c in l[1..] ensures c != '.' {
        var i :| 0 <= i < |l| - 1 && l[1..][i] == c;
        assert l[i + 1] == c;
      }
    }
  }

  lemma HexHasNoMarks(s: string, length: nat)
    requires IsHex(s, length)
    ensures '/' !in s && '.' !in s
  {
    assert !IsHexDigit('/') && !IsHexDigit('.');
  }

  lemma HexParts(sha1: string)
    requires IsHex(sha1, 40)
    ensures IsHex(sha1[..2], 2) && IsHex(sha1[2..4], 2) && IsHex(sha1[..4], 4)
  {
  }

  /** What the three parts of an object path are split into. */
  lemma SplitObject(a: string, b: string, last: string)
    requires '/' !in a && '/' !in b && '/' !in last
    ensures Split(a + "/" + (b + "/" + last)) == [a, b, last]
  {
    SplitSegment(a, b + "/" + last);
    SplitSegment(b, last);
    SplitLast(last);
  }

  /** An object's href parses back to the object exactly when its name does not end in a dot. */
  lemma HrefRoundTrip(sha1: string, name: string)
    requires IsHex(sha1, 40)
    ensures var href := ObjectHref(sha1, name);
            ParseResource(href) == if name != "" && name[|name| - 1] == '.' then None else Some(Object(sha1, href))
  {
    hide Extension, Split, IndexOf;
    var href, e := ObjectHref(sha1, name), Extension(name);
    ExtensionMeans(name);
    HexParts(sha1);
    HexHasNoMarks(sha1, 40);
    HexHasNoMarks(sha1[..2], 2);
    HexHasNoMarks(sha1[2..4], 2);
    var last := sha1 + e;
    assert href[|href| - 1] == last[|last| - 1] && last[|last| - 1] != '/';
    var rest := sha1[..2] + "/" + (sha1[2..4] + "/" + last);
    assert href[|OBJECTS_ROOT| + 1..] == rest && OBJECTS_ROOT + "/" <= href;
    SplitObject(sha1[..2], sha1[2..4], last);
    assert last[..40] == sha1;
    IndexOfUnique(last, '.', 40);
    assert |href| > |OBJECTS_ROOT|;
  }

  lemma FirstRoundTrip(prefix: string)
    requires IsHex(prefix, 2)
    ensures ParseResource(FirstHref(prefix)) == Some(FirstBucket(prefix))
  {
    HexHasNoMarks(prefix, 2);
    var clean := OBJECTS_ROOT + "/" + prefix;
    assert TrimSlash(FirstHref(prefix)) == clean;
    assert clean[|OBJECTS_ROOT| + 1..] == prefix && OBJECTS_ROOT + "/" <= clean;
    SplitLast(prefix);
  }

  lemma SecondRoundTrip(prefix: string)
    requires IsHex(prefix, 4)
    ensures ParseResource(SecondHref(prefix)) == Some(SecondBucket(prefix))
  {
    var a, b := prefix[..2], prefix[2..];
    assert IsHex(a, 2) && IsHex(b, 2) && a + b == prefix;
    HexHasNoMarks(a, 2);
    HexHasNoMarks(b, 2);
    var clean := OBJECTS_ROOT + "/" + (a + "/" + b);
    assert TrimSlash(SecondHref(prefix)) == clean;
    assert clean[|OBJECTS_ROOT| + 1..] == a + "/" + b && OBJECTS_ROOT + "/" <= clean;
    SplitSegment(a, b);
    SplitLast(b);
  }

  // ----- Listing -----

  type Contents = map<string, Content>

  ghost predicate AllHex(contents: Contents) {
    forall s | s in contents :: IsHex(s, 40)
  }

  function SelfHref(r: Resource): string
    requires r.SecondBucket? ==> |r.prefix| == 4
  {
    match r
    case DavRoot => DavHref()
    case ObjectsRoot => ObjectsHref()
    case FirstBucket(prefix) => FirstHref(prefix)
    case SecondBucket(prefix) => SecondHref(prefix)
    case Object(_, href) => href
  }

  /** substr over the rows that start with a prefix. */
  function Prefixes(contents: Contents, prefix: string, length: nat): set<string> {
    set s | s in contents && prefix <= s && length <= |s| :: s[..length]
  }

  function Children(contents: Contents, r: Resource): set<string> {
    match r
    case DavRoot => {ObjectsHref()}
    case ObjectsRoot => set p | p in Prefixes(contents, "", 2) :: FirstHref(p)
    case FirstBucket(prefix) => set p | p in Prefixes(contents, prefix, 4) && |p| == 4 :: SecondHref(p)
    case SecondBucket(prefix) =>
      set s | s in contents && prefix <= s && |s| == 40 :: ObjectHref(s, contents[s].preferredName)
    case Object(_, _) => {}
  }

  /** Buckets without objects are not there. */
  predicate Exists(contents: Contents, r: Resource) {
    match r
    case FirstBucket(prefix) => Prefixes(contents, prefix, 4) != {}
    case SecondBucket(prefix) => exists s | s in contents :: prefix <= s
    case Object(sha1, _) => sha1 in contents
    case _ => true
  }

  ghost predicate Lists(hrefs: seq<string>, wanted: set<string>) {
    (forall h :: h in hrefs <==> h in wanted) && forall i, j | 0 <= i < j < |hrefs| :: hrefs[i] != hrefs[j]
  }

  /** The rows of a query, each once. */
  method Rows(wanted: set<string>) returns (hrefs: seq<string>)
    ensures Lists(hrefs, wanted)
  {
    hrefs := [];
    var left := wanted;
    while left != {}
      invariant left <= wanted && Lists(hrefs, wanted - left)
      decreases |left|
    {
      var h :| h in left;
      left := left - {h};
      hrefs := hrefs + [h];
    }
    assert wanted - left == wanted;
  }

  /** A resource's own href, and with depth 1 the hrefs of its children. */
  method Entries(contents: Contents, r: Resource, includeChildren: bool) returns (hrefs: Option<seq<string>>)
    requires r.SecondBucket? ==> |r.prefix| == 4
    ensures hrefs.Some? <==> Exists(contents, r)
    ensures hrefs.Some? ==> |hrefs.value| >= 1 && hrefs.value[0] == SelfHref(r)
                            && Lists(hrefs.value[1..], if includeChildren then Children(contents, r) else {})
  {
    if !Exists(contents, r) {
      return None;
    }
    var children: seq<string> := [];
    if includeChildren {
      children := Rows(Children(contents, r));
    }
    assert ([SelfHref(r)] + children)[1..] == children;
    hrefs := Some([SelfHref(r)] + children);
  }

  // ----- Walking -----

  /** An href is listed below the one before it. */
  ghost predicate Listed(contents: Contents, t: seq<string>, i: nat)
    requires i + 1 < |t|
  {
    ParseResource(t[i]).Some? && t[i + 1] in Children(contents, ParseResource(t[i]).value)
  }

  ghost predicate Trail(contents: Contents, t: seq<string>) {
    t != [] && t[0] == DavHref() && forall i: nat | i + 1 < |t| :: Listed(contents, t, i)
  }

  function TrailTo(contents: Contents, sha1: string): seq<string>
    requires sha1 in contents && |sha1| == 40
  {
    [DavHref(), ObjectsHref(), FirstHref(sha1[..2]), SecondHref(sha1[..4]),
     ObjectHref(sha1, contents[sha1].preferredName)]
  }

  lemma RootsParse()
    ensures ParseResource(DavHref()) == Some(DavRoot)
    ensures ParseResource(ObjectsHref()) == Some(ObjectsRoot)
  {
    assert TrimSlash(DavHref()) == DAV_ROOT;
    assert TrimSlash(ObjectsHref()) == OBJECTS_ROOT;
  }

  lemma BelowObjects(contents: Contents, next: string) returns (further: string)
    requires AllHex(contents) && next in Children(contents, ObjectsRoot)
    ensures further in contents && |further| == 40 && next == FirstHref(further[..2])
  {
    assert forall s | s in contents :: |s| == 40;
    hide IsHex, FirstHref;
    var p :| p in Prefixes(contents, "", 2) && next == FirstHref(p);
    further :| further in contents && further[..2] == p;
  }

  lemma BelowFirst(contents: Contents, sha1: string, next: string) returns (further: string)
    requires AllHex(contents) && |sha1| == 40 && next in Children(contents, FirstBucket(sha1[..2]))
    ensures further in contents && |further| == 40 && further[..2] == sha1[..2] && next == SecondHref(further[..4])
  {
    assert forall s | s in contents :: |s| == 40;
    hide IsHex, SecondHref;
    var p :| p in Prefixes(contents, sha1[..2], 4) && |p| == 4 && next == SecondHref(p);
    further :| further in contents && sha1[..2] <= further && further[..4] == p;
  }

  lemma BelowSecond(contents: Contents, sha1: string, next: string) returns (further: string)
    requires AllHex(contents) && |sha1| == 40 && next in Children(contents, SecondBucket(sha1[..4]))
    ensures further in contents && |further| == 40 && further[..4] == sha1[..4] && further[..2] == sha1[..2]
    ensures next == ObjectHref(further, contents[further].preferredName)
  {
    hide IsHex, ObjectHref;
    further :| further in contents && sha1[..4] <= further && |further| == 40
            && next == ObjectHref(further, contents[further].preferredName);
    assert further[..4] == sha1[..4] && further[..2] == further[..4][..2] && sha1[..2] == sha1[..4][..2];
  }

  /** Two objects whose trails share their first hrefs. */
  ghost predicate Shared(contents: Contents, s: string, u: string, n: nat)
    requires s in contents && u in contents && |s| == 40 && |u| == 40 && n <= 5
  {
    forall i | 0 <= i < n :: TrailTo(contents, s)[i] == TrailTo(contents, u)[i]
  }

  /** The step of a walk that leads below a listed href. */
  lemma NextOnTrail(contents: Contents, sha1: string, n: nat, at: string, next: string) returns (further: string)
    requires AllHex(contents) && sha1 in contents && |sha1| == 40 && 2 <= n <= 4
    requires at == TrailTo(contents, sha1)[n - 1]
    requires ParseResource(at).Some? && next in Children(contents, ParseResource(at).value)
    ensures further in contents && |further| == 40
    ensures Shared(contents, sha1, further, n) && TrailTo(contents, further)[n] == next
  {
    var t := TrailTo(contents, sha1);
    assert t[1] == ObjectsHref() && t[2] == FirstHref(sha1[..2]) && t[3] == SecondHref(sha1[..4]);
    HexParts(sha1);
    RootsParse();
    FirstRoundTrip(sha1[..2]);
    SecondRoundTrip(sha1[..4]);
    hide ParseResource, DavHref, ObjectsHref, FirstHref, SecondHref, ObjectHref, IsHex, Children, TrailTo;
    if n == 2 {
      further := BelowObjects(contents, next);
    } else if n == 3 {
      further := BelowFirst(contents, sha1, next);
    } else {
      further := BelowSecond(contents, sha1, next);
    }
    TrailsAgree(contents, sha1, further, n);
  }

  lemma TrailsAgree(contents: Contents, s: string, u: string, n: nat)
    requires s in contents && u in contents && |s| == 40 && |u| == 40 && 2 <= n <= 4
    requires n >= 3 ==> s[..2] == u[..2]
    requires n >= 4 ==> s[..4] == u[..4]
    ensures Shared(contents, s, u, n)
    ensures TrailTo(contents, u)[2] == FirstHref(u[..2]) && TrailTo(contents, u)[3] == SecondHref(u[..4])
    ensures TrailTo(contents, u)[4] == ObjectHref(u, contents[u].preferredName)
  {
    hide FirstHref, SecondHref, ObjectHref;
  }

  /** Every trail is the beginning of the trail to some object. */
  lemma {:induction false} TrailShape(contents: Contents, t: seq<string>, n: nat) returns (sha1: string)
    requires AllHex(contents) && Trail(contents, t) && contents != map[] && 1 <= n <= |t|
    ensures sha1 in contents && |sha1| == 40 && n <= 5
    ensures forall i | 0 <= i < n :: t[i] == TrailTo(contents, sha1)[i]
  {
    assert forall s | s in contents :: |s| == 40;
    if n == 1 {
      sha1 :| sha1 in contents;
    } else {
      var before := TrailShape(contents, t, n - 1);
      assert Listed(contents, t, n - 2);
      sha1 := LongerTrail(contents, before, n - 1, t[n - 2], t[n - 1]);
      hide ParseResource, Children, IsHex, TrailTo, DavHref, ObjectsHref, Shared;
      forall i | 0 <= i < n ensures t[i] == TrailTo(contents, sha1)[i] {
        if i < n - 1 {
          SharedAt(contents, before, sha1, n - 1, i);
        }
      }
    }
  }

  lemma SharedAt(contents: Contents, s: string, u: string, n: nat, i: nat)
    requires s in contents && u in contents && |s| == 40 && |u| == 40 && i < n <= 5 && Shared(contents, s, u, n)
    ensures TrailTo(contents, s)[i] == TrailTo(contents, u)[i]
  {
  }

  lemma LongerTrail(contents: Contents, sha1: string, n: nat, at: string, next: string) returns (further: string)
    requires AllHex(contents) && sha1 in contents && |sha1| == 40 && 1 <= n <= 5
    requires at == TrailTo(contents, sha1)[n - 1]
    requires ParseResource(at).Some? && next in Children(contents, ParseResource(at).value)
    ensures n < 5 && further in contents && |further| == 40
    ensures Shared(contents, sha1, further, n) && TrailTo(contents, further)[n] == next
  {
    if n == 1 {
      RootsParse();
      further := sha1;
      RootChildren(contents);
    } else if n < 5 {
      further := NextOnTrail(contents, sha1, n, at, next);
    } else {
      ObjectsHaveNoChildren(contents, sha1);
    }
  }

  lemma RootChildren(contents: Contents)
    ensures Children(contents, DavRoot) == {ObjectsHref()}
  {
  }

  lemma ObjectsHaveNoChildren(contents: Contents, sha1: string)
    requires AllHex(contents) && sha1 in contents
    ensures var href := ObjectHref(sha1, contents[sha1].preferredName);
            ParseResource(href).Some? ==> Children(contents, ParseResource(href).value) == {}
  {
    HrefRoundTrip(sha1, contents[sha1].preferredName);
  }

  lemma ObjectIsListed(contents: Contents, sha1: string)
    requires sha1 in contents && |sha1| == 40
    ensures FirstHref(sha1[..2]) in Children(contents, ObjectsRoot)
    ensures SecondHref(sha1[..4]) in Children(contents, FirstBucket(sha1[..2]))
    ensures ObjectHref(sha1, contents[sha1].preferredName) in Children(contents, SecondBucket(sha1[..4]))
  {
    hide FirstHref, SecondHref, ObjectHref;
    assert sha1[..2] in Prefixes(contents, "", 2);
    assert sha1[..2] <= sha1 && sha1[..4] in Prefixes(contents, sha1[..2], 4);
    assert sha1[..4] <= sha1;
  }

  lemma TrailIsThere(contents: Contents, sha1: string)
    requires AllHex(contents) && sha1 in contents
    ensures Trail(contents, TrailTo(contents, sha1))
  {
    var t := TrailTo(contents, sha1);
    assert |sha1| == 40;
    RootsParse();
    RootChildren(contents);
    HexParts(sha1);
    FirstRoundTrip(sha1[..2]);
    SecondRoundTrip(sha1[..4]);
    ObjectIsListed(contents, sha1);
    hide ParseResource, DavHref, ObjectsHref, FirstHref, SecondHref, ObjectHref, IsHex, Children;
    forall i: nat | i + 1 < |t| ensures Listed(contents, t, i) {
      assert i == 0 || i == 1 || i == 2 || i == 3;
    }
  }

  /**
   Walking listings of depth 1 from the root reaches every content object, each along one way only,
   and nothing else at that depth.
   */
  lemma WalkReachesEachOnce(contents: Contents, t: seq<string>)
    requires AllHex(contents) && |t| == 5
    ensures Trail(contents, t) <==> exists s | s in contents :: t == TrailTo(contents, s)
    ensures forall s, u | s in contents && u in contents && TrailTo(contents, s) == TrailTo(contents, u) :: s == u
  {
    if Trail(contents, t) && contents != map[] {
      var s := TrailShape(contents, t, 5);
      assert t == TrailTo(contents, s);
    }
    if contents == map[] && Trail(contents, t) {
      EmptyWalk(contents, t);
    }
    forall s | s in contents ensures Trail(contents, TrailTo(contents, s)) {
      TrailIsThere(contents, s);
    }
    forall s, u | s in contents && u in contents && TrailTo(contents, s) == TrailTo(contents, u) ensures s == u {
      HrefNamesObject(s, contents[s].preferredName);
      HrefNamesObject(u, contents[u].preferredName);
      assert TrailTo(contents, s)[4] == TrailTo(contents, u)[4];
    }
  }

  lemma HrefNamesObject(sha1: string, name: string)
    requires IsHex(sha1, 40)
    ensures |ObjectHref(sha1, name)| > |OBJECTS_ROOT| + 47
            && ObjectHref(sha1, name)[|OBJECTS_ROOT| + 7..|OBJECTS_ROOT| + 47] == sha1
  {
    ExtensionMeans(name);
  }

  lemma EmptyWalk(contents: Contents, t: seq<string>)
    requires contents == map[] && Trail(contents, t)
    ensures |t| <= 2
  {
    RootsParse();
    if |t| > 2 {
      assert Listed(contents, t, 0);
      NothingBelowObjects(contents, t);
    }
  }

  lemma NothingBelowObjects(contents: Contents, t: seq<string>)
    requires contents == map[] && |t| > 2 && t[1] == ObjectsHref()
    ensures !Listed(contents, t, 1)
  {
    RootsParse();
  }

  // ----- What is there -----

  lemma {:induction false} ExtOf(base: string, ext: string)
    requires '.' !in ext && '/' !in ext
    ensures Ext(base + "." + ext) == "." + ext
  {
    var name := base + "." + ext;
    if ext == "" {
      assert name[|name| - 1] == '.';
    } else {
      var shorter := ext[..|ext| - 1];
      ExtOf(base, shorter);
      assert name[..|name| - 1] == base + "." + shorter;
      assert name[|name| - 1] == ext[|ext| - 1] && ext[|ext| - 1] in ext;
      assert "." + shorter + [ext[|ext| - 1]] == "." + ext;
    }
  }

  lemma {:induction false} NoExt(base: string, last: string)
    requires '.' !in last && (base == "" || base[|base| - 1] == '/')
    ensures Ext(base + last) == ""
  {
    var name := base + last;
    if last == "" {
      assert name == base;
    } else {
      NoExt(base, last[..|last| - 1]);
      assert name[..|name| - 1] == base + last[..|last| - 1];
      assert name[|name| - 1] == last[|last| - 1] && last[|last| - 1] in last;
    }
  }

  /** What follows the last dot of a name in lower case, or .bin if its last part has no dot. */
  lemma ExtensionOf(base: string, ext: string)
    requires '.' !in ext && '/' !in ext
    ensures Extension(base + "." + ext) == "." + Lower(ext)
    ensures base == "" || base[|base| - 1] == '/' ==> Extension(base + ext) == ".bin"
  {
    ExtOf(base, ext);
    assert Lower("." + ext) == "." + Lower(ext);
    if base == "" || base[|base| - 1] == '/' {
      NoExt(base, ext);
    }
  }

  /** A resource as a path can name it. */
  predicate IsNamed(r: Resource) {
    match r
    case FirstBucket(prefix) => IsHex(prefix, 2)
    case SecondBucket(prefix) => IsHex(prefix, 4)
    case Object(sha1, href) => IsHex(sha1, 40) && ParseResource(href) == Some(r)
    case _ => true
  }

  /** Every named resource has its own href, which parses back to it. */
  lemma SelfHrefParses(r: Resource)
    requires IsNamed(r)
    ensures ParseResource(SelfHref(r)) == Some(r)
  {
    RootsParse();
    match r
    case FirstBucket(prefix) => FirstRoundTrip(prefix);
    case SecondBucket(prefix) => SecondRoundTrip(prefix);
    case _ =>
  }

  /** An object of the contents lies below the resource. */
  predicate Below(sha1: string, r: Resource) {
    match r
    case FirstBucket(prefix) => |sha1| >= 2 && sha1[..2] == prefix
    case SecondBucket(prefix) => |sha1| >= 4 && sha1[..4] == prefix
    case Object(s, _) => sha1 == s
    case _ => true
  }

  lemma IsThere(contents: Contents, r: Resource)
    requires AllHex(contents) && IsNamed(r)
    ensures Exists(contents, r) <==> r.DavRoot? || r.ObjectsRoot? || exists s | s in contents :: Below(s, r)
  {
    match r
    case FirstBucket(prefix) =>
      if p :| p in Prefixes(contents, prefix, 4) {
        var s :| s in contents && prefix <= s;
        assert Below(s, r);
      }
      if s :| s in contents && Below(s, r) {
        assert |s| == 40 && prefix <= s && s[..4] in Prefixes(contents, prefix, 4);
      }
    case SecondBucket(prefix) =>
      if s :| s in contents && prefix <= s {
        assert |s| == 40 && Below(s, r);
      }
      if s :| s in contents && Below(s, r) {
        assert |s| == 40 && prefix <= s;
      }
    case Object(s, _) =>
      assert s in contents ==> Below(s, r);
    case _ =>
  }

  /** A bucket is there exactly if its href is on the way to some object. */
  lemma ThereIffOnTrail(contents: Contents, r: Resource)
    requires AllHex(contents) && IsNamed(r) && (r.FirstBucket? || r.SecondBucket?)
    ensures Exists(contents, r) <==> exists s | s in contents :: SelfHref(r) in TrailTo(contents, s)
  {
    IsThere(contents, r);
    if s :| s in contents && Below(s, r) {
      OnTrail(contents, r, s);
    }
    if s :| s in contents && SelfHref(r) in TrailTo(contents, s) {
      var i :| 0 <= i < 5 && TrailTo(contents, s)[i] == SelfHref(r);
      BelowItsBuckets(contents, r, s, i);
    }
  }

  lemma OnTrail(contents: Contents, r: Resource, s: string)
    requires AllHex(contents) && s in contents && Below(s, r) && IsNamed(r) && (r.FirstBucket? || r.SecondBucket?)
    ensures |s| == 40 && SelfHref(r) in TrailTo(contents, s)
  {
    hide FirstHref, SecondHref, ObjectHref, DavHref, ObjectsHref;
    var t := TrailTo(contents, s);
    assert t[2] == FirstHref(s[..2]) && t[3] == SecondHref(s[..4]);
  }

  lemma BelowItsBuckets(contents: Contents, r: Resource, s: string, i: nat)
    requires AllHex(contents) && s in contents && IsNamed(r) && (r.FirstBucket? || r.SecondBucket?)
    requires i < 5 && |s| == 40 && TrailTo(contents, s)[i] == SelfHref(r)
    ensures Below(s, r)
  {
    SelfHrefParses(r);
    TrailParses(contents, s);
    hide ParseResource, SelfHref, TrailTo, IsHex;
    assert i == 0 || i == 1 || i == 2 || i == 3 || i == 4;
  }

  lemma TrailParses(contents: Contents, s: string)
    requires AllHex(contents) && s in contents
    ensures |s| == 40
    ensures var t := TrailTo(contents, s);
            && ParseResource(t[0]) == Some(DavRoot) && ParseResource(t[1]) == Some(ObjectsRoot)
            && ParseResource(t[2]) == Some(FirstBucket(s[..2])) && ParseResource(t[3]) == Some(SecondBucket(s[..4]))
            && (ParseResource(t[4]).Some? ==> ParseResource(t[4]).value.Object?)
  {
    RootsParse();
    HexParts(s);
    FirstRoundTrip(s[..2]);
    SecondRoundTrip(s[..4]);
    HrefRoundTrip(s, contents[s].preferredName);
    hide ParseResource, FirstHref, SecondHref, ObjectHref, DavHref, ObjectsHref;
  }

  /**
   No listing leads nowhere: what is listed below a resource parses to a resource that is there and answers
   with the same href, but for objects whose name ends in a dot.
   */
  lemma NoDeadEnds(contents: Contents, r: Resource, next: string)
    requires AllHex(contents) && IsNamed(r) && contents != map[] && next in Children(contents, r)
    ensures (match ParseResource(next)
             case Some(child) => IsNamed(child) && Exists(contents, child) && SelfHref(child) == next
             case None => exists s | s in contents :: EndsInDot(contents[s].preferredName)
                                                      && next == ObjectHref(s, contents[s].preferredName))
  {
    RootsParse();
    match r
    case DavRoot =>
    case ObjectsRoot =>
      var s := BelowObjects(contents, next);
      HexParts(s);
      FirstRoundTrip(s[..2]);
      ChildIsThere(contents, FirstBucket(s[..2]), s);
    case FirstBucket(prefix) =>
      var p :| p in Prefixes(contents, prefix, 4) && |p| == 4 && next == SecondHref(p);
      var s :| s in contents && prefix <= s && s[..4] == p;
      HexParts(s);
      SecondRoundTrip(p);
      ChildIsThere(contents, SecondBucket(p), s);
    case SecondBucket(prefix) =>
      var s :| s in contents && prefix <= s && |s| == 40 && next == ObjectHref(s, contents[s].preferredName);
      HrefRoundTrip(s, contents[s].preferredName);
      hide ParseResource, ObjectHref;
    case _ =>
  }

  predicate EndsInDot(name: string) {
    name != "" && name[|name| - 1] == '.'
  }

  lemma ChildIsThere(contents: Contents, r: Resource, s: string)
    requires AllHex(contents) && IsNamed(r) && s in contents && Below(s, r)
    ensures Exists(contents, r)
  {
    IsThere(contents, r);
  }

  // ----- What parses -----

  predicate IsLowerHex(s: string) {
    forall c | c in s :: c in "0123456789abcdef"
  }

  function Joined(segments: seq<string>): string
    requires segments != []
    decreases |segments|
  {
    if |segments| == 1 then segments[0] else segments[0] + "/" + Joined(segments[1..])
  }

  lemma {:induction false} SplitJoins(s: string)
    ensures Split(s) != [] && Joined(Split(s)) == s
    decreases |s|
  {
    var i := IndexOf(s, '/');
    if i < |s| {
      SplitJoins(s[i + 1..]);
      assert ([s[..i]] + Split(s[i + 1..]))[1..] == Split(s[i + 1..]);
      assert s == s[..i] + "/" + s[i + 1..];
    }
  }

  lemma HexIsLower(s: string, length: nat)
    ensures IsHex(s, length) <==> |s| == length && IsLowerHex(s)
  {
    forall c: char ensures IsHexDigit(c) <==> c in "0123456789abcdef" {
      HexDigit(c);
    }
  }

  lemma HexDigit(c: char)
    ensures IsHexDigit(c) <==> c in "0123456789abcdef"
  {
    var digits := "0123456789abcdef";
    assert digits[0] == '0' && digits[1] == '1' && digits[2] == '2' && digits[3] == '3' && digits[4] == '4'
        && digits[5] == '5' && digits[6] == '6' && digits[7] == '7' && digits[8] == '8' && digits[9] == '9';
    assert digits[10] == 'a' && digits[11] == 'b' && digits[12] == 'c' && digits[13] == 'd' && digits[14] == 'e'
        && digits[15] == 'f';
  }

  /** A path names an object only by its hash in the two buckets that the hash begins with, and some extension. */
  ghost predicate NamesObject(clean: string, sha1: string) {
    && |sha1| == 40 && IsLowerHex(sha1)
    && exists e ::
         && |e| > 1 && e[0] == '.'
         && clean == "/dav/objects/" + (sha1[..2] + "/" + (sha1[2..4] + "/" + (sha1 + e)))
  }

  /** Exactly these paths parse, with or without a slash at the end. */
  lemma OnlyTheseParse(value: string)
    ensures var clean := TrimSlash(value);
            match ParseResource(value)
            case Some(DavRoot) => clean == "/dav"
            case Some(ObjectsRoot) => clean == "/dav/objects"
            case Some(FirstBucket(p)) => |p| == 2 && IsLowerHex(p) && clean == "/dav/objects/" + p
            case Some(SecondBucket(p)) =>
              |p| == 4 && IsLowerHex(p) && clean == "/dav/objects/" + (p[..2] + "/" + p[2..])
            case Some(Object(sha1, href)) => href == clean && NamesObject(clean, sha1)
            case None => true
  {
    var clean := TrimSlash(value);
    if clean != DAV_ROOT && clean != OBJECTS_ROOT && OBJECTS_ROOT + "/" <= clean {
      var rest := clean[|OBJECTS_ROOT| + 1..];
      var root := "/dav/objects/";
      assert |root| == |OBJECTS_ROOT| + 1 && root == OBJECTS_ROOT + "/" && clean[..|root|] == root;
      assert clean == root + rest;
      SegmentsParse(Split(rest), rest, clean);
    }
    hide ParseSegments, Split, NamesObject, IsLowerHex, TrimSlash;
  }

  lemma SegmentsParse(segments: seq<string>, rest: string, clean: string)
    requires segments == Split(rest) && clean == "/dav/objects/" + rest
    ensures match ParseSegments(segments, clean)
            case Some(FirstBucket(p)) => |p| == 2 && IsLowerHex(p) && rest == p
            case Some(SecondBucket(p)) => |p| == 4 && IsLowerHex(p) && rest == p[..2] + "/" + p[2..]
            case Some(Object(sha1, href)) => href == clean && NamesObject(clean, sha1)
            case Some(_) => false
            case None => true
  {
    SplitJoins(rest);
    hide Split, NamesObject, IsLowerHex, IsHex;
    if |segments| == 1 {
      HexIsLower(segments[0], 2);
    } else if |segments| == 2 {
      assert segments[1..] == [segments[1]];
      if IsHex(segments[0], 2) && IsHex(segments[1], 2) {
        TwoBuckets(segments[0], segments[1]);
      }
    } else if |segments| == 3 {
      assert segments[1..][1..] == [segments[2]];
      assert Joined(segments[1..]) == segments[1] + "/" + segments[2];
      assert rest == segments[0] + "/" + (segments[1] + "/" + segments[2]);
      var dot := IndexOf(segments[2], '.');
      if dot < |segments[2]| - 1 && IsHex(segments[2][..dot], 40) {
        ObjectPath(segments[0], segments[1], segments[2], dot, clean);
      }
    }
  }

  lemma TwoBuckets(a: string, b: string)
    requires IsHex(a, 2) && IsHex(b, 2)
    ensures |a + b| == 4 && IsLowerHex(a + b) && (a + b)[..2] == a && (a + b)[2..] == b
  {
    HexIsLower(a, 2);
    HexIsLower(b, 2);
  }

  lemma ObjectPath(a: string, b: string, last: string, dot: nat, clean: string)
    requires dot < |last| - 1 && last[dot] == '.' && IsHex(last[..dot], 40)
    requires clean == "/dav/objects/" + (a + "/" + (b + "/" + last))
    ensures a == last[..dot][..2] && b == last[..dot][2..4] ==> NamesObject(clean, last[..dot])
  {
    HexIsLower(last[..dot], 40);
    var e := last[dot..];
    assert last == last[..dot] + e && |e| > 1 && e[0] == '.';
    hide IsHex, IsLowerHex;
  }
}
