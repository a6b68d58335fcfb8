/** What the magnet of an encoded torrent says, in terms of the tree that was encoded. */
module TorrentTheorems {
  import opened Wrappers
  import opened Bencode
  import opened BencodeTheorems
  import opened Torrent

  // ----- Reading the tree -----

  /** The entry that counts for a key. */
  predicate IsLast(es: seq<Entry>, i: int, key: Bytes) {
    0 <= i < |es| && es[i].key == key && forall j | i < j < |es| :: es[j].key != key
  }

  predicate IsText(t: Tree, b: Bytes) {
    t == TextTree(b) && b != []
  }

  /** The text under a key: none if there is no entry, or the last one is no text or empty. */
  ghost predicate TextAt(es: seq<Entry>, key: Bytes, text: Option<Bytes>) {
    match text
    case Some(b) => exists i :: IsLast(es, i, key) && IsText(es[i].tree, b)
    case None => forall i, b | IsLast(es, i, key) :: !IsText(es[i].tree, b)
  }

  /** The texts of some entries, one after the other. */
  function TextsIn(es: seq<Entry>): seq<Bytes>
    decreases |es|
  {
    if es == [] then []
    else (if es[0].tree.TextTree? && es[0].tree.bytes != [] then [es[0].tree.bytes] else []) + TextsIn(es[1..])
  }

  /** The texts of the lists among some entries. */
  function TextsOfTiers(es: seq<Entry>): seq<Bytes>
    decreases |es|
  {
    if es == [] then []
    else
      (if es[0].tree.Group? && !es[0].tree.keyed then TextsIn(es[0].tree.entries) else []) + TextsOfTiers(es[1..])
  }

  /** The single announce, and then what the lists of an announce-list name. */
  ghost predicate AnnouncedIn(es: seq<Entry>, announced: seq<Bytes>) {
    exists first, tiers ::
      && TextAt(es, ANNOUNCE, first) && AreTiers(es, tiers)
      && announced == (if first.Some? then [first.value] else []) + tiers
  }

  ghost predicate AreTiers(es: seq<Entry>, tiers: seq<Bytes>) {
    && (forall i | IsLast(es, i, ANNOUNCE_LIST) ::
          tiers == if es[i].tree.Group? && !es[i].tree.keyed then TextsOfTiers(es[i].tree.entries) else [])
    && ((forall i :: !IsLast(es, i, ANNOUNCE_LIST)) ==> tiers == [])
  }

  /** The name for this purpose is name.utf-8, or else name. */
  ghost predicate NameIn(info: Tree, name: Option<Bytes>) {
    if info.Group? && info.keyed
    then exists utf8, plain ::
           && TextAt(info.entries, NAME_UTF8, utf8) && TextAt(info.entries, NAME, plain)
           && name == if utf8.Some? then utf8 else plain
    else name == None
  }

  // ----- Reading the decoded values -----

  /** The value is the tree, wherever it was read. */
  predicate Reads(v: BValue, t: Tree) {
    v == Located(t, v.start)
  }

  lemma {:induction false} FieldsRead(es: seq<Entry>, at: int, keyed: bool)
    ensures |LocateFields(es, at, keyed)| == |es|
    ensures forall i | 0 <= i < |es| ::
              LocateFields(es, at, keyed)[i].key == es[i].key && Reads(LocateFields(es, at, keyed)[i].part, es[i].tree)
    decreases |es|
  {
    if es != [] {
      var next := at + |EncodeKey(es[0].key, keyed)|;
      FieldsRead(es[1..], next + |Encode(es[0].tree)|, keyed);
      StartsAt(es[0].tree, next);
      hide Located, Encode, EncodeKey;
    }
  }

  lemma StartsAt(t: Tree, at: int)
    ensures Located(t, at).start == at
  {
  }

  lemma LastExists(es: seq<Entry>, key: Bytes, i: nat) returns (last: nat)
    requires i < |es| && es[i].key == key
    ensures IsLast(es, last, key)
    decreases |es| - i
  {
    last := i;
    if j :| i < j < |es| && es[j].key == key {
      last := LastExists(es, key, j);
    }
  }

  /** What a dictionary has under a key. */
  lemma EntriesRead(es: seq<Entry>, at: int, key: Bytes)
    ensures var entries := LastOfEach(LocateFields(es, at, true));
            && (key in entries <==> exists i :: IsLast(es, i, key))
            && (forall i | IsLast(es, i, key) :: Reads(entries[key], es[i].tree))
  {
    var fields := LocateFields(es, at, true);
    FieldsRead(es, at, true);
    var from := LastOfEachOccurs(fields);
    hide LastOfEach, LocateFields, Reads;
    if key in from {
      var last := LastExists(es, key, from[key]);
      assert fields[last].key == key && last <= from[key];
    }
  }

  lemma TextReads(v: BValue, t: Tree)
    requires Reads(v, t)
    ensures match NonEmptyText(v) case Some(b) => IsText(t, b) case None => forall b :: !IsText(t, b)
  {
  }

  lemma TextUnderReads(es: seq<Entry>, at: int, key: Bytes)
    ensures TextAt(es, key, TextUnder(LastOfEach(LocateFields(es, at, true)), key))
  {
    EntriesRead(es, at, key);
    hide LastOfEach, LocateFields, Reads, IsText, NonEmptyText;
    var entries := LastOfEach(LocateFields(es, at, true));
    forall i | IsLast(es, i, key)
      ensures match NonEmptyText(entries[key])
              case Some(b) => IsText(es[i].tree, b)
              case None => forall b :: !IsText(es[i].tree, b)
    {
      TextReads(entries[key], es[i].tree);
    }
  }

  lemma GroupReads(v: BValue, t: Tree)
    requires Reads(v, t)
    ensures v.value.Dictionary? <==> t.Group? && t.keyed
    ensures v.value.List? <==> t.Group? && !t.keyed
    ensures v.value.Dictionary? ==> v.value.entries == LastOfEach(LocateFields(t.entries, v.start + 1, true))
    ensures v.value.List? ==> v.value.items == Parts(LocateFields(t.entries, v.start + 1, false))
  {
    hide LastOfEach, LocateFields, Encode;
  }

  lemma NameReads(v: BValue, info: Tree)
    requires Reads(v, info)
    ensures NameIn(info, NameOf(v))
  {
    GroupReads(v, info);
    if info.Group? && info.keyed {
      TextUnderReads(info.entries, v.start + 1, NAME_UTF8);
      TextUnderReads(info.entries, v.start + 1, NAME);
    }
    hide LastOfEach, LocateFields, Reads, TextUnder, TextAt;
  }

  /** The parts of a list read the entries one by one. */
  predicate ReadAll(items: seq<BValue>, es: seq<Entry>) {
    |items| == |es| && forall i | 0 <= i < |es| :: Reads(items[i], es[i].tree)
  }

  lemma PartsRead(es: seq<Entry>, at: int)
    ensures ReadAll(Parts(LocateFields(es, at, false)), es)
  {
    FieldsRead(es, at, false);
    hide Parts, LocateFields, Reads;
  }

  lemma {:induction false} TextsInSnoc(es: seq<Entry>)
    requires es != []
    ensures var last := es[|es| - 1].tree;
            TextsIn(es) ==
            TextsIn(es[..|es| - 1]) + if last.TextTree? && last.bytes != [] then [last.bytes] else []
    decreases |es|
  {
    if |es| > 1 {
      TextsInSnoc(es[1..]);
      assert es[1..][..|es| - 2] == es[..|es| - 1][1..];
    } else {
      assert es[1..] == [] && es[..0] == [];
    }
  }

  lemma {:induction false} TextsRead(items: seq<BValue>, es: seq<Entry>)
    requires ReadAll(items, es)
    ensures Texts(items) == TextsIn(es)
  {
    if es != [] {
      var n := |es| - 1;
      TextsRead(items[..n], es[..n]);
      TextsInSnoc(es);
      TextReads(items[n], es[n].tree);
    }
  }

  lemma {:induction false} TiersSnoc(es: seq<Entry>)
    requires es != []
    ensures var last := es[|es| - 1].tree;
            TextsOfTiers(es) ==
            TextsOfTiers(es[..|es| - 1]) + if last.Group? && !last.keyed then TextsIn(last.entries) else []
    decreases |es|
  {
    hide TextsIn;
    if |es| > 1 {
      TiersSnoc(es[1..]);
      assert es[1..][..|es| - 2] == es[..|es| - 1][1..];
    } else {
      assert es[1..] == [] && es[..0] == [];
    }
  }

  lemma {:induction false} TiersRead(items: seq<BValue>, es: seq<Entry>)
    requires ReadAll(items, es)
    ensures TextsOfAll(items) == TextsOfTiers(es)
  {
    if es != [] {
      var n := |es| - 1;
      TiersRead(items[..n], es[..n]);
      TiersSnoc(es);
      TierReads(items[n], es[n].tree);
      hide Reads, TextsIn, InTier;
    }
  }

  lemma TierReads(v: BValue, t: Tree)
    requires Reads(v, t)
    ensures InTier(v) == if t.Group? && !t.keyed then TextsIn(t.entries) else []
  {
    GroupReads(v, t);
    if t.Group? && !t.keyed {
      PartsRead(t.entries, v.start + 1);
      TextsRead(v.value.items, t.entries);
    }
    hide Reads, TextsIn, Texts, Parts, LocateFields;
  }

  lemma AnnouncedReads(es: seq<Entry>, at: int)
    ensures AnnouncedIn(es, Announced(LastOfEach(LocateFields(es, at, true))))
  {
    hide *;
    var entries := LastOfEach(LocateFields(es, at, true));
    TextUnderReads(es, at, ANNOUNCE);
    var tiers := TiersAt(es, at);
    AnnouncedParts(entries, es, TextUnder(entries, ANNOUNCE), tiers);
  }

  lemma AnnouncedParts(entries: map<Bytes, BValue>, es: seq<Entry>, first: Option<Bytes>, tiers: seq<Bytes>)
    requires TextAt(es, ANNOUNCE, first) && AreTiers(es, tiers) && first == TextUnder(entries, ANNOUNCE)
    requires tiers == if ANNOUNCE_LIST in entries then InTiers(entries[ANNOUNCE_LIST]) else []
    ensures AnnouncedIn(es, Announced(entries))
  {
    hide TextAt, AreTiers, TextUnder, InTiers;
  }

  lemma TiersAt(es: seq<Entry>, at: int) returns (tiers: seq<Bytes>)
    ensures AreTiers(es, tiers)
    ensures var entries := LastOfEach(LocateFields(es, at, true));
            tiers == if ANNOUNCE_LIST in entries then InTiers(entries[ANNOUNCE_LIST]) else []
  {
    EntriesRead(es, at, ANNOUNCE_LIST);
    hide LastOfEach, LocateFields, IsLast, Reads, InTiers, TextsOfTiers;
    var entries := LastOfEach(LocateFields(es, at, true));
    tiers := if ANNOUNCE_LIST in entries then InTiers(entries[ANNOUNCE_LIST]) else [];
    forall i | IsLast(es, i, ANNOUNCE_LIST)
      ensures 0 <= i < |es|
      ensures tiers == if es[i].tree.Group? && !es[i].tree.keyed then TextsOfTiers(es[i].tree.entries) else []
    {
      LastIsThere(es, i, ANNOUNCE_LIST);
      ListReads(entries[ANNOUNCE_LIST], es[i].tree);
    }
  }

  lemma LastIsThere(es: seq<Entry>, i: int, key: Bytes)
    requires IsLast(es, i, key)
    ensures 0 <= i < |es|
  {
  }

  lemma ListReads(v: BValue, t: Tree)
    requires Reads(v, t)
    ensures InTiers(v) == if t.Group? && !t.keyed then TextsOfTiers(t.entries) else []
  {
    GroupReads(v, t);
    if t.Group? && !t.keyed {
      PartsRead(t.entries, v.start + 1);
      TiersRead(v.value.items, t.entries);
    }
    hide Reads, TextsOfTiers, TextsOfAll, Parts, LocateFields;
  }

  /**
   For an encoded torrent that fits, the magnet has the digest of the encoding of the last info value, the
   name in it and, without repeats of the first, the trackers announced in the tree.
   */
  lemma MagnetOfEncoding(es: seq<Entry>, i: nat) returns (announced: seq<Bytes>)
    requires var root := Group(true, es); Proper(root) && Fits(root, 0)
    requires IsLast(es, i, INFO)
    ensures var data := Encode(Group(true, es));
            var decoded := DecodeValue(data, 0, 0);
            && decoded.Some? && decoded.value.end == |data| && decoded.value.value.Dictionary?
            && INFO in decoded.value.value.entries
            && var entries := decoded.value.value.entries;
               var info := entries[INFO];
               && 0 <= info.start <= info.end <= |data| && data[info.start..info.end] == Encode(es[i].tree)
               && NameIn(es[i].tree, NameOf(info))
               && AnnouncedIn(es, announced) && Announced(entries) == announced
  {
    DigestOfEncoding(es, i);
    RoundTrip(Group(true, es));
    var entries := LastOfEach(LocateFields(es, 1, true));
    assert DecodeValue(Encode(Group(true, es)), 0, 0).value.value.entries == entries;
    hide *;
    EntriesRead(es, 1, INFO);
    NameReads(entries[INFO], es[i].tree);
    AnnouncedReads(es, 1);
    announced := Announced(entries);
  }
}
