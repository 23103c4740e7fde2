/** `flatten_logged_data` of src/smax_daemon/example_hardware_interface.py: the nested
    `logged_data` configuration becomes one dict keyed by `:`-joined paths. */
module Flatten {
  import opened ConfigTree
  import Dicts

  /** `leaf_keys`: the three fixed markers followed by the SMA-X metadata names,
      which belong to the external `smax` package and are a parameter here. */
  function LeafKeys(metadata: seq<string>): seq<string> {
    ["function", "attribute", "type"] + metadata
  }

  /** The leaf test applied to a mapping node. `any` is fed the marker names themselves,
      so a marker counts only when it is a non-empty (truthy) string. */
  predicate IsLeafNode(entries: seq<(string, Value)>, metadata: seq<string>) {
    var markers := LeafKeys(metadata);
    |entries| == 0 || exists i :: 0 <= i < |markers| && markers[i] != "" && Dicts.HasKey(entries, markers[i])
  }

  /** A value the flattener emits as it is: anything but a mapping, or a leaf mapping. */
  predicate Emitted(v: Value, metadata: seq<string>) {
    !v.Map? || IsLeafNode(v.entries, metadata)
  }

  /** `parent_key + separator + key if parent_key else key`. */
  function NewKey(parent: string, key: string): string {
    if parent == "" then key else parent + ":" + key
  }

  /** `flatten_logged_data(dictionary, parent_key)`: the collected items made into a dict. */
  function Flatten(entries: seq<(string, Value)>, parent: string, metadata: seq<string>): (r: Dicts.Dict<Value>)
    ensures Dicts.UniqueKeys(r)
    ensures forall i :: 0 <= i < |r| ==> Emitted(r[i].1, metadata)
    decreases entries, 1
  {
    var items := Items(entries, parent, metadata);
    Dicts.FromItemsSubset(items);
    Dicts.FromItems(items)
  }

  /** The `items` list built by the loop: one item per leaf entry, the flattening of each interior one. */
  function Items(entries: seq<(string, Value)>, parent: string, metadata: seq<string>): (r: seq<(string, Value)>)
    ensures forall i :: 0 <= i < |r| ==> Emitted(r[i].1, metadata)
    decreases entries, 0
  {
    if |entries| == 0 then []
    else
      var first := EntryItems(entries[0], parent, metadata);
      var rest := Items(entries[1..], parent, metadata);
      assert forall i :: |first| <= i < |first| + |rest| ==> (first + rest)[i] == rest[i - |first|];
      first + rest
  }

  /** What one `(key, value)` entry contributes to `items`. */
  function EntryItems(entry: (string, Value), parent: string, metadata: seq<string>): (r: seq<(string, Value)>)
    ensures forall i :: 0 <= i < |r| ==> Emitted(r[i].1, metadata)
    decreases entry
  {
    var (key, value) := entry;
    if value.Map? && !IsLeafNode(value.entries, metadata) then Flatten(value.entries, NewKey(parent, key), metadata)
    else [(NewKey(parent, key), value)]
  }

  /** The items list is the concatenation of the entries' contributions, entry `i` sitting between
      the items of the entries before it and those after it. */
  lemma {:induction false} ItemsSplit(entries: seq<(string, Value)>, parent: string, metadata: seq<string>, i: nat)
    requires i < |entries|
    ensures Items(entries, parent, metadata)
      == Items(entries[..i], parent, metadata) + EntryItems(entries[i], parent, metadata) + Items(entries[i + 1..], parent, metadata)
  {
    if i == 0 {
      assert entries[..0] == [];
    } else {
      ItemsSplit(entries[1..], parent, metadata, i - 1);
      assert entries[1..][..i - 1] == entries[1..i];
      assert entries[1..][i - 1] == entries[i];
      assert entries[1..][i..] == entries[i + 1..];
      assert entries[..i][1..] == entries[1..i];
      assert entries[..i][0] == entries[0];
    }
  }

  /** A non-mapping value, or a mapping that is empty or carries a leaf marker, is emitted once,
      unchanged, under its parent path extended by its key, and is not recursed into: that item is
      the entry's whole contribution. Its path is a key of the result. */
  lemma LeafEntryEmitted(entries: seq<(string, Value)>, parent: string, metadata: seq<string>, i: nat)
    requires i < |entries|
    requires Emitted(entries[i].1, metadata)
    ensures Items(entries, parent, metadata)
      == Items(entries[..i], parent, metadata) + [(NewKey(parent, entries[i].0), entries[i].1)] + Items(entries[i + 1..], parent, metadata)
    ensures (NewKey(parent, entries[i].0), entries[i].1) in Items(entries, parent, metadata)
    ensures Dicts.HasKey(Flatten(entries, parent, metadata), NewKey(parent, entries[i].0))
  {
    var items := Items(entries, parent, metadata);
    ItemsSplit(entries, parent, metadata, i);
    var j := |Items(entries[..i], parent, metadata)|;
    assert items[j] == (NewKey(parent, entries[i].0), entries[i].1);
    Dicts.HasKeyIndex(items, j);
    Dicts.LastValueHasKey(items, items[j].0);
  }

  /** A non-empty mapping without a leaf marker contributes exactly its own flattening under the
      extended path, and is never itself a value of the result. */
  lemma InteriorEntryFlattened(entries: seq<(string, Value)>, parent: string, metadata: seq<string>, i: nat)
    requires i < |entries|
    requires entries[i].1.Map? && !IsLeafNode(entries[i].1.entries, metadata)
    ensures Items(entries, parent, metadata)
      == Items(entries[..i], parent, metadata)
         + Flatten(entries[i].1.entries, NewKey(parent, entries[i].0), metadata)
         + Items(entries[i + 1..], parent, metadata)
    ensures forall j :: 0 <= j < |Flatten(entries, parent, metadata)| ==> Flatten(entries, parent, metadata)[j].1 != entries[i].1
  {
    ItemsSplit(entries, parent, metadata, i);
  }

  /** When no two paths collide, the dict holds every collected item in collection order. */
  lemma FlattenWithoutCollisions(entries: seq<(string, Value)>, parent: string, metadata: seq<string>)
    requires Dicts.UniqueKeys(Items(entries, parent, metadata))
    ensures Flatten(entries, parent, metadata) == Items(entries, parent, metadata)
  {
    Dicts.FromItemsOfDict(Items(entries, parent, metadata));
  }

  /** At the top level, entries that are all emitted as they are contribute themselves. */
  lemma {:induction false} ItemsOfFlat(entries: seq<(string, Value)>, metadata: seq<string>)
    requires forall i :: 0 <= i < |entries| ==> Emitted(entries[i].1, metadata)
    ensures Items(entries, "", metadata) == entries
  {
    if |entries| > 0 {
      ItemsOfFlat(entries[1..], metadata);
      assert [entries[0]] + entries[1..] == entries;
    }
  }

  /** Flattening a dict that has no interior node returns it unchanged. */
  lemma FlattenFlat(entries: seq<(string, Value)>, metadata: seq<string>)
    requires Dicts.UniqueKeys(entries)
    requires forall i :: 0 <= i < |entries| ==> Emitted(entries[i].1, metadata)
    ensures Flatten(entries, "", metadata) == entries
  {
    ItemsOfFlat(entries, metadata);
    Dicts.FromItemsOfDict(entries);
  }

  /** Flattening is idempotent: a flattened dict flattens to itself. */
  lemma FlattenIdempotent(entries: seq<(string, Value)>, parent: string, metadata: seq<string>)
    ensures Flatten(Flatten(entries, parent, metadata), "", metadata) == Flatten(entries, parent, metadata)
  {
    FlattenFlat(Flatten(entries, parent, metadata), metadata);
  }
}
