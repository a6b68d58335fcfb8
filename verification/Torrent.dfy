/**
 From torrent metadata to a magnet link (internal/transport/qbittorrent/metainfo.go). The
 SHA-1 digest is a parameter; URL encoding is not part of this model, so a magnet is the
 list of its query values.
 */
module Torrent {
  import opened Wrappers
  import opened Bencode
  import opened BencodeTheorems

  datatype Magnet = Magnet(digest: Bytes, name: Option<Bytes>, trackers: seq<Bytes>)

  datatype MetadataError = Malformed | NotDictionary | NoInfo | InfoOutOfRange

  const INFO: Bytes := [105, 110, 102, 111]
  const NAME: Bytes := [110, 97, 109, 101]
  const NAME_UTF8: Bytes := NAME + [46, 117, 116, 102, 45, 56]
  const ANNOUNCE: Bytes := [97, 110, 110, 111, 117, 110, 99, 101]
  const ANNOUNCE_LIST: Bytes := ANNOUNCE + [45, 108, 105, 115, 116]

  /** The value under a key when it is a string that is not empty. */
  function TextUnder(entries: map<Bytes, BValue>, key: Bytes): Option<Bytes> {
    if key in entries then NonEmptyText(entries[key]) else None
  }

  function NonEmptyText(v: BValue): Option<Bytes> {
    if v.value.Text? && v.value.bytes != [] then Some(v.value.bytes) else None
  }

  function NameOf(info: BValue): Option<Bytes> {
    if !info.value.Dictionary? then None
    else if TextUnder(info.value.entries, NAME_UTF8).Some? then TextUnder(info.value.entries, NAME_UTF8)
    else TextUnder(info.value.entries, NAME)
  }

  /** All announced trackers, tier after tier, the single `announce` first. */
  function Announced(entries: map<Bytes, BValue>): seq<Bytes> {
    var first := TextUnder(entries, ANNOUNCE);
    (if first.Some? then [first.value] else []) +
    (if ANNOUNCE_LIST in entries then InTiers(entries[ANNOUNCE_LIST]) else [])
  }

  function InTiers(tiers: BValue): seq<Bytes> {
    if tiers.value.List? then TextsOfAll(tiers.value.items) else []
  }

  function TextsOfAll(tiers: seq<BValue>): seq<Bytes> {
    if tiers == [] then []
    else TextsOfAll(tiers[..|tiers| - 1]) + InTier(tiers[|tiers| - 1])
  }

  function InTier(tier: BValue): seq<Bytes> {
    if tier.value.List? then Texts(tier.value.items) else []
  }

  function Texts(items: seq<BValue>): seq<Bytes> {
    if items == [] then []
    else
      var last := NonEmptyText(items[|items| - 1]);
      Texts(items[..|items| - 1]) + (if last.Some? then [last.value] else [])
  }

  function WithoutRepeatsOfFirst(announced: seq<Bytes>): seq<Bytes> {
    if announced == [] then []
    else
      var r := WithoutRepeatsOfFirst(announced[..|announced| - 1]);
      var last := announced[|announced| - 1];
      if r != [] && last == r[0] then r else r + [last]
  }

  /** The first tracker is kept once; the others are kept as often as they are announced. */
  lemma {:induction false} FirstTrackerOnce(announced: seq<Bytes>)
    requires announced != []
    ensures WithoutRepeatsOfFirst(announced) != [] && WithoutRepeatsOfFirst(announced)[0] == announced[0]
    ensures multiset(WithoutRepeatsOfFirst(announced)) == multiset(announced)[announced[0] := 1]
  {
    var n := |announced| - 1;
    assert announced == announced[..n] + [announced[n]];
    if n > 0 {
      FirstTrackerOnce(announced[..n]);
    }
  }

  method MagnetFromTorrent(data: Bytes, sha1: Bytes -> Bytes) returns (r: Result<Magnet, MetadataError>)
    ensures var decoded := DecodeValue(data, 0, 0);
            if decoded.None? || decoded.value.end != |data| then r == Err(Malformed)
            else if !decoded.value.value.Dictionary? then r == Err(NotDictionary)
            else
              var entries := decoded.value.value.entries;
              if INFO !in entries then r == Err(NoInfo)
              else
                var info := entries[INFO];
                && 0 <= info.start <= info.end <= |data|
                && r == Ok(Magnet(sha1(data[info.start..info.end]), NameOf(info),
                                  WithoutRepeatsOfFirst(Announced(entries))))
  {
    var decoder := new BDecoder(data);
    var decoded := decoder.Value();
    if decoded.None? || decoder.offset != |data| {
      return Err(Malformed);
    }
    var root := decoded.value;
    if !root.value.Dictionary? {
      return Err(NotDictionary);
    }
    var entries := root.value.entries;
    if INFO !in entries {
      return Err(NoInfo);
    }
    var info := entries[INFO];
    DecodedWellNested(data, 0, 0);
    assert WellNested(info);
    if info.start < root.start || info.end > root.end {
      assert false;
      return Err(InfoOutOfRange);
    }
    var trackers := Trackers(entries);
    r := Ok(Magnet(sha1(data[info.start..info.end]), NameOf(info), trackers));
  }

  method Trackers(entries: map<Bytes, BValue>) returns (trackers: seq<Bytes>)
    ensures trackers == WithoutRepeatsOfFirst(Announced(entries))
  {
    trackers := [];
    var announce := TextUnder(entries, ANNOUNCE);
    if announce.Some? {
      trackers := [announce.value];
      assert [announce.value][..0] == [];
    }
    ghost var first := trackers;
    assert first + [] == first;
    if ANNOUNCE_LIST in entries && entries[ANNOUNCE_LIST].value.List? {
      trackers := AddTiers(trackers, entries[ANNOUNCE_LIST].value.items, first);
    }
  }

  method AddTiers(before: seq<Bytes>, tiers: seq<BValue>, ghost announced: seq<Bytes>) returns (trackers: seq<Bytes>)
    requires before == WithoutRepeatsOfFirst(announced)
    ensures trackers == WithoutRepeatsOfFirst(announced + TextsOfAll(tiers))
  {
    hide WithoutRepeatsOfFirst;
    trackers := before;
    assert announced + [] == announced;
    for i := 0 to |tiers|
      invariant trackers == WithoutRepeatsOfFirst(announced + TextsOfAll(tiers[..i]))
    {
      assert tiers[..i + 1][..i] == tiers[..i];
      ghost var done := announced + TextsOfAll(tiers[..i]);
      assert done + InTier(tiers[i]) == announced + (TextsOfAll(tiers[..i]) + InTier(tiers[i]));
      assert done + [] == done;
      if tiers[i].value.List? {
        trackers := AddTier(trackers, tiers[i].value.items, done);
      }
    }
    assert tiers[..|tiers|] == tiers;
  }

  method AddTier(before: seq<Bytes>, tier: seq<BValue>, ghost announced: seq<Bytes>) returns (trackers: seq<Bytes>)
    requires before == WithoutRepeatsOfFirst(announced)
    ensures trackers == WithoutRepeatsOfFirst(announced + Texts(tier))
  {
    trackers := before;
    ghost var done := announced;
    for j := 0 to |tier|
      invariant done == announced + Texts(tier[..j])
      invariant trackers == WithoutRepeatsOfFirst(done)
    {
      assert tier[..j + 1][..j] == tier[..j];
      var tracker := NonEmptyText(tier[j]);
      if tracker.Some? {
        assert (done + [tracker.value])[..|done|] == done;
        done := done + [tracker.value];
        if trackers == [] || tracker.value != trackers[0] {
          trackers := trackers + [tracker.value];
        }
      }
    }
    assert tier[..|tier|] == tier;
  }

  // ----- What the digest stands for -----

  /** The part of an encoded group that an entry occupies is that entry's encoding. */
  lemma {:induction false} EntryAt(data: Bytes, at: nat, es: seq<Entry>, keyed: bool, i: nat)
    requires i < |es| && Holds(data, at, EncodeEntries(es, keyed))
    requires forall j | 0 <= j < |es| :: keyed || es[j].key == []
    ensures |LocateFields(es, at, keyed)| == |es|
    ensures LocateFields(es, at, keyed)[i].key == es[i].key
    ensures var part := LocateFields(es, at, keyed)[i].part;
            && 0 <= part.start && Holds(data, part.start, Encode(es[i].tree))
            && part.end == part.start + |Encode(es[i].tree)|
    decreases |es|
  {
    hide Encode, Holds, EncodeKey;
    EncodedEntriesSplit(data, at, es, keyed);
    if |es| > 1 {
      var next := at + |EncodeKey(es[0].key, keyed)| + |Encode(es[0].tree)|;
      EntryAt(data, next, es[1..], keyed, if i == 0 then 0 else i - 1);
    }
  }

  lemma EncodedGroupHolds(es: seq<Entry>)
    ensures Holds(Encode(Group(true, es)), 1, EncodeEntries(es, true))
  {
  }

  /** For an encoded torrent that fits, the digest is that of the encoding of its last info value. */
  lemma DigestOfEncoding(es: seq<Entry>, i: nat)
    requires var root := Group(true, es); Proper(root) && Fits(root, 0)
    requires i < |es| && es[i].key == INFO && forall j | i < j < |es| :: es[j].key != INFO
    ensures var data := Encode(Group(true, es));
            var decoded := DecodeValue(data, 0, 0);
            && decoded.Some? && decoded.value.end == |data| && decoded.value.value.Dictionary?
            && INFO in decoded.value.value.entries
            && var info := decoded.value.value.entries[INFO];
               0 <= info.start <= info.end <= |data| && data[info.start..info.end] == Encode(es[i].tree)
  {
    hide Encode, EncodeEntries, LocateFields, EntriesFit, Proper, LastOfEach, DecodeValue;
    var data := Encode(Group(true, es));
    RoundTrip(Group(true, es));
    var fields := LocateFields(es, 1, true);
    EncodedGroupHolds(es);
    EntryAt(data, 1, es, true, i);
    var from := LastOfEachOccurs(fields);
    forall j | i < j < |es| ensures fields[j].key != INFO {
      EntryAt(data, 1, es, true, j);
    }
  }

  /** Wherever it came from, the info part decodes alone, from depth 0, to the same value. */
  lemma InfoDecodesAlone(data: Bytes, entries: map<Bytes, BValue>, key: Bytes)
    requires DecodeValue(data, 0, 0).Some? && DecodeValue(data, 0, 0).value.value == Dictionary(entries)
    requires key in entries
    ensures 0 <= entries[key].start <= entries[key].end <= |data|
    ensures var alone := DecodeValue(data[entries[key].start..entries[key].end], 0, 0);
            alone.Some? && SameMoved(entries[key], alone.value, -entries[key].start)
  {
    RootFields(data, entries);
    var fields := DecodeFields(data, 1, 1, true).fields;
    DecodedFieldsOrdered(data, 1, 1, true);
    PartDecodesAlone(data, fields, entries, key);
  }

  lemma RootFields(data: Bytes, entries: map<Bytes, BValue>)
    requires DecodeValue(data, 0, 0).Some? && DecodeValue(data, 0, 0).value.value == Dictionary(entries)
    ensures |data| >= 1 && DecodeFields(data, 1, 1, true).FieldsRead?
    ensures entries == LastOfEach(DecodeFields(data, 1, 1, true).fields)
  {
    hide DecodeFields, DecodeText, IndexOf, ParseInt64, LastOfEach;
  }

  lemma SliceCopies(data: Bytes, start: nat, end: nat)
    requires start <= end <= |data|
    ensures Copies(data, start, end, data[start..end], 0)
  {
  }

  lemma PartDecodesAlone(data: Bytes, fields: seq<Field>, entries: map<Bytes, BValue>, key: Bytes)
    requires entries == LastOfEach(fields) && key in entries
    requires Ordered(fields, 1, |data| + 1)
    requires forall i | 0 <= i < |fields| ::
               fields[i].part.start <= |data| && DecodeValue(data, fields[i].part.start, 1) == Some(fields[i].part)
    ensures 0 <= entries[key].start <= entries[key].end <= |data|
    ensures var alone := DecodeValue(data[entries[key].start..entries[key].end], 0, 0);
            alone.Some? && SameMoved(entries[key], alone.value, -entries[key].start)
  {
    hide LastOfEach, DecodeValue, SameMoved;
    var i := FieldOf(fields, key);
    SliceDecodesAlone(data, fields[i].part);
  }

  lemma FieldOf(fields: seq<Field>, key: Bytes) returns (i: nat)
    requires key in LastOfEach(fields)
    ensures i < |fields| && fields[i].part == LastOfEach(fields)[key]
  {
    hide LastOfEach;
    var from := LastOfEachOccurs(fields);
    i := from[key];
  }

  lemma SliceDecodesAlone(data: Bytes, part: BValue)
    requires 0 <= part.start <= part.end <= |data| && DecodeValue(data, part.start, 1) == Some(part)
    ensures var alone := DecodeValue(data[part.start..part.end], 0, 0);
            alone.Some? && SameMoved(part, alone.value, -part.start)
  {
    hide DecodeValue, Copies;
    SliceCopies(data, part.start, part.end);
    DecodeIsLocal(data, part.start, 1, data[part.start..part.end], 0, 0);
  }
}
