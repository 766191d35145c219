/**
 * Renaming a pack ID in everything the launcher settings remember about it:
 * folders, sidebar order, pins, and the `id|address` keys of pinned servers
 * (`migratePackIDReferences`, backend/custompack_api.go).
 */
module PackIds {

  datatype Folder = Folder(name: string, packIds: seq<string>)

  datatype Settings = Settings(
    folders: seq<Folder>,
    order: seq<string>,
    pinned: seq<string>,
    serverOrder: seq<string>)

  // -------------------------------------------------------------------------
  // What a rename means, on values
  // -------------------------------------------------------------------------

  function RenameId(id: string, oldId: string, newId: string): string {
    if id == oldId then newId else id
  }

  function RenameList(ids: seq<string>, oldId: string, newId: string): (r: seq<string>)
    ensures |r| == |ids|
  {
    seq(|ids|, i requires 0 <= i < |ids| => RenameId(ids[i], oldId, newId))
  }

  predicate HasPrefix(s: string, prefix: string) {
    prefix <= s
  }

  function RenameKey(key: string, oldId: string, newId: string): string {
    if HasPrefix(key, oldId + "|") then newId + key[|oldId|..] else key
  }

  function RenameKeys(keys: seq<string>, oldId: string, newId: string): (r: seq<string>)
    ensures |r| == |keys|
  {
    seq(|keys|, i requires 0 <= i < |keys| => RenameKey(keys[i], oldId, newId))
  }

  function RenameFolders(fs: seq<Folder>, oldId: string, newId: string): (r: seq<Folder>)
    ensures |r| == |fs|
  {
    seq(|fs|, i requires 0 <= i < |fs| => fs[i].(packIds := RenameList(fs[i].packIds, oldId, newId)))
  }

  function Renamed(s: Settings, oldId: string, newId: string): Settings {
    Settings(
      RenameFolders(s.folders, oldId, newId),
      RenameList(s.order, oldId, newId),
      RenameList(s.pinned, oldId, newId),
      RenameKeys(s.serverOrder, oldId, newId))
  }

  /** The new ID stands at exactly the places where the old one stood. */
  predicate PlacesRenamed(before: seq<string>, after: seq<string>, oldId: string, newId: string) {
    && |after| == |before|
    && forall i | 0 <= i < |before| :: after[i] == if before[i] == oldId then newId else before[i]
  }

  /** Every list keeps its length and order, every folder its name, and a key keeps what
      stands behind the ID. */
  lemma RenamedExactly(s: Settings, oldId: string, newId: string)
    ensures var r := Renamed(s, oldId, newId);
            && |r.folders| == |s.folders|
            && (forall i | 0 <= i < |s.folders| ::
                  r.folders[i].name == s.folders[i].name && PlacesRenamed(s.folders[i].packIds, r.folders[i].packIds, oldId, newId))
            && PlacesRenamed(s.order, r.order, oldId, newId)
            && PlacesRenamed(s.pinned, r.pinned, oldId, newId)
            && |r.serverOrder| == |s.serverOrder|
            && forall i | 0 <= i < |s.serverOrder| ::
                 r.serverOrder[i] == if oldId + "|" <= s.serverOrder[i] then newId + "|" + s.serverOrder[i][|oldId| + 1..] else s.serverOrder[i]
  {
    var r := Renamed(s, oldId, newId);
    forall i | 0 <= i < |s.serverOrder|
      ensures r.serverOrder[i] == if oldId + "|" <= s.serverOrder[i] then newId + "|" + s.serverOrder[i][|oldId| + 1..] else s.serverOrder[i]
    {
      KeyRenamed(s.serverOrder[i], oldId, newId);
    }
  }

  lemma KeyRenamed(key: string, oldId: string, newId: string)
    ensures RenameKey(key, oldId, newId) == if oldId + "|" <= key then newId + "|" + key[|oldId| + 1..] else key
  {
    if oldId + "|" <= key {
      assert key[|oldId|] == (oldId + "|")[|oldId|] == '|';
      assert key[|oldId|..] == "|" + key[|oldId| + 1..];
    }
  }

  /** Some list or key refers to the pack `id`. */
  ghost predicate Mentions(s: Settings, id: string) {
    || (exists i | 0 <= i < |s.folders| :: id in s.folders[i].packIds)
    || id in s.order
    || id in s.pinned
    || exists k | k in s.serverOrder :: HasPrefix(k, id + "|")
  }

  // -------------------------------------------------------------------------
  // Renaming back
  // -------------------------------------------------------------------------

  /** Renaming back needs that nothing but the renamed pack carries the new ID. */
  ghost predicate ListFree(ids: seq<string>, oldId: string, newId: string) {
    newId in ids ==> newId == oldId
  }

  ghost predicate KeysFree(keys: seq<string>, oldId: string, newId: string) {
    forall i | 0 <= i < |keys| :: HasPrefix(keys[i], newId + "|") ==> HasPrefix(keys[i], oldId + "|")
  }

  ghost predicate Free(s: Settings, oldId: string, newId: string) {
    && (forall i | 0 <= i < |s.folders| :: ListFree(s.folders[i].packIds, oldId, newId))
    && ListFree(s.order, oldId, newId)
    && ListFree(s.pinned, oldId, newId)
    && KeysFree(s.serverOrder, oldId, newId)
  }

  lemma ListBack(ids: seq<string>, oldId: string, newId: string)
    ensures RenameList(RenameList(ids, oldId, newId), newId, oldId) == ids <==> ListFree(ids, oldId, newId)
  {
    var back := RenameList(RenameList(ids, oldId, newId), newId, oldId);
    if newId in ids && newId != oldId {
      var i :| 0 <= i < |ids| && ids[i] == newId;
      assert back[i] == oldId;
    }
  }

  lemma KeyBack(key: string, oldId: string, newId: string)
    ensures RenameKey(RenameKey(key, oldId, newId), newId, oldId) == key
            <==> (HasPrefix(key, newId + "|") ==> HasPrefix(key, oldId + "|"))
  {
    var o, n := oldId + "|", newId + "|";
    if HasPrefix(key, o) {
      var moved := newId + key[|oldId|..];
      assert key[|oldId|..][0] == o[|oldId|];
      assert moved[..|n|] == n;
      assert moved[|newId|..] == key[|oldId|..];
      assert oldId + key[|oldId|..] == key;
    } else if HasPrefix(key, n) {
      var back := oldId + key[|newId|..];
      assert key[|newId|..][0] == n[|newId|] == '|';
      assert back[..|o|] == o;
    }
  }

  lemma KeysBack(keys: seq<string>, oldId: string, newId: string)
    ensures RenameKeys(RenameKeys(keys, oldId, newId), newId, oldId) == keys <==> KeysFree(keys, oldId, newId)
  {
    var back := RenameKeys(RenameKeys(keys, oldId, newId), newId, oldId);
    forall i | 0 <= i < |keys|
      ensures back[i] == keys[i] <==> (HasPrefix(keys[i], newId + "|") ==> HasPrefix(keys[i], oldId + "|"))
    {
      KeyBack(keys[i], oldId, newId);
    }
  }

  lemma FoldersBack(fs: seq<Folder>, oldId: string, newId: string)
    ensures RenameFolders(RenameFolders(fs, oldId, newId), newId, oldId) == fs
            <==> forall i | 0 <= i < |fs| :: ListFree(fs[i].packIds, oldId, newId)
  {
    var back := RenameFolders(RenameFolders(fs, oldId, newId), newId, oldId);
    forall i | 0 <= i < |fs| ensures back[i] == fs[i] <==> ListFree(fs[i].packIds, oldId, newId) {
      ListBack(fs[i].packIds, oldId, newId);
    }
  }

  /** Renaming a pack and renaming it back restores every list exactly when the
      new ID was not already in use. */
  lemma RenameBackRestores(s: Settings, oldId: string, newId: string)
    ensures Renamed(Renamed(s, oldId, newId), newId, oldId) == s <==> Free(s, oldId, newId)
  {
    FoldersBack(s.folders, oldId, newId);
    ListBack(s.order, oldId, newId);
    ListBack(s.pinned, oldId, newId);
    KeysBack(s.serverOrder, oldId, newId);
  }

  // -------------------------------------------------------------------------
  // Other packs and leftovers
  // -------------------------------------------------------------------------

  predicate NoBar(id: string) {
    '|' !in id
  }

  /** The key of a pack whose ID has no bar belongs to exactly one such ID, so
      an ID that only extends another is never taken for it. */
  lemma KeyBelongsToOnePack(id: string, other: string, address: string)
    requires NoBar(id) && NoBar(other)
    ensures HasPrefix(other + "|" + address, id + "|") <==> id == other
  {
    var key, p := other + "|" + address, id + "|";
    if HasPrefix(key, p) {
      assert key[|id|] == p[|id|] == '|' && key[|other|] == '|';
      assert key[..|id|] == id && key[..|other|] == other;
    }
  }

  /** The renamed pack's servers keep their addresses, other packs' keys stay. */
  lemma KeysOfOtherPacksStay(id: string, oldId: string, newId: string, address: string)
    requires NoBar(id) && NoBar(oldId)
    ensures RenameKey(id + "|" + address, oldId, newId) == RenameId(id, oldId, newId) + "|" + address
  {
    KeyBelongsToOnePack(oldId, id, address);
    if id == oldId {
      assert (id + "|" + address)[|id|..] == "|" + address;
    }
  }

  /** Bar-free IDs: after the rename nothing refers to the old ID any more, so no
      phantom entry is left. */
  lemma NoPhantomIsLeft(s: Settings, oldId: string, newId: string)
    requires oldId != newId && NoBar(oldId) && NoBar(newId)
    ensures !Mentions(Renamed(s, oldId, newId), oldId)
  {
    var r := Renamed(s, oldId, newId);
    forall i | 0 <= i < |r.folders| ensures oldId !in r.folders[i].packIds {
    }
    forall k | k in r.serverOrder ensures !HasPrefix(k, oldId + "|") {
      var i :| 0 <= i < |r.serverOrder| && r.serverOrder[i] == k;
      var was := s.serverOrder[i];
      if HasPrefix(was, oldId + "|") {
        assert was[|oldId|..][0] == '|';
        var address := was[|oldId|..][1..];
        assert k == newId + "|" + address;
        KeyBelongsToOnePack(oldId, newId, address);
      }
    }
  }

  /** And every pack but these two is mentioned exactly if it was before. */
  lemma OthersAreMentionedAsBefore(s: Settings, oldId: string, newId: string, id: string)
    requires NoBar(oldId) && NoBar(newId) && NoBar(id) && id != oldId && id != newId
    ensures Mentions(Renamed(s, oldId, newId), id) <==> Mentions(s, id)
  {
    var r := Renamed(s, oldId, newId);
    forall i | 0 <= i < |s.folders| ensures id in r.folders[i].packIds <==> id in s.folders[i].packIds {
      OthersInList(s.folders[i].packIds, oldId, newId, id);
    }
    OthersInList(s.order, oldId, newId, id);
    OthersInList(s.pinned, oldId, newId, id);
    forall i | 0 <= i < |s.serverOrder| ensures HasPrefix(r.serverOrder[i], id + "|") <==> HasPrefix(s.serverOrder[i], id + "|") {
      OthersInKey(s.serverOrder[i], oldId, newId, id);
    }
    OthersInKeys(s.serverOrder, r.serverOrder, id + "|");
  }

  lemma OthersInList(ids: seq<string>, oldId: string, newId: string, id: string)
    requires id != oldId && id != newId
    ensures id in RenameList(ids, oldId, newId) <==> id in ids
  {
    var r := RenameList(ids, oldId, newId);
    if id in ids {
      var i :| 0 <= i < |ids| && ids[i] == id;
      assert r[i] == id;
    }
  }

  lemma OthersInKey(key: string, oldId: string, newId: string, id: string)
    requires NoBar(oldId) && NoBar(newId) && NoBar(id) && id != oldId && id != newId
    ensures HasPrefix(RenameKey(key, oldId, newId), id + "|") <==> HasPrefix(key, id + "|")
  {
    if HasPrefix(key, oldId + "|") {
      var address := key[|oldId|..][1..];
      assert key[|oldId|..][0] == (oldId + "|")[|oldId|] == '|';
      assert key == oldId + "|" + address && RenameKey(key, oldId, newId) == newId + "|" + address;
      KeyBelongsToOnePack(id, oldId, address);
      KeyBelongsToOnePack(id, newId, address);
    }
  }

  lemma OthersInKeys(a: seq<string>, b: seq<string>, prefix: string)
    requires |a| == |b| && forall i | 0 <= i < |a| :: HasPrefix(a[i], prefix) <==> HasPrefix(b[i], prefix)
    ensures (exists k | k in a :: HasPrefix(k, prefix)) <==> exists k | k in b :: HasPrefix(k, prefix)
  {
    if i :| 0 <= i < |a| && HasPrefix(a[i], prefix) {
      assert b[i] in b;
      assert a[i] in a;
    }
  }

  // -------------------------------------------------------------------------
  // The program's loops
  // -------------------------------------------------------------------------

  /** The stored settings; a write can fail, and its error is ignored. */
  class Config {
    var settings: Settings
    var writable: bool
    var writes: nat

    method UpdateSettings(s: Settings)
      modifies this
      ensures writable == old(writable) && writes == old(writes) + 1
      ensures settings == if writable then s else old(settings)
    {
      if writable {
        settings := s;
      }
      writes := writes + 1;
    }
  }

  method ListHasId(ids: seq<string>, id: string) returns (has: bool)
    ensures has <==> id in ids
  {
    for i := 0 to |ids|
      invariant id !in ids[..i]
    {
      if ids[i] == id {
        return true;
      }
    }
    return false;
  }

  method ReplaceIdInList(ids: seq<string>, oldId: string, newId: string) returns (r: seq<string>)
    ensures r == RenameList(ids, oldId, newId) && PlacesRenamed(ids, r, oldId, newId)
  {
    var out: seq<string> := [];
    var changed := false;
    for i := 0 to |ids|
      invariant out == RenameList(ids, oldId, newId)[..i]
      invariant !changed ==> out == ids[..i]
    {
      if ids[i] == oldId {
        out := out + [newId];
        changed := true;
      } else {
        out := out + [ids[i]];
      }
    }
    if !changed {
      return ids;
    }
    return out;
  }

  /** The inner loop over one folder's IDs. */
  method RenameInFolder(folder: Folder, oldId: string, newId: string) returns (r: Folder, dirty: bool)
    ensures r == folder.(packIds := RenameList(folder.packIds, oldId, newId))
    ensures dirty <==> oldId in folder.packIds
  {
    var ids := folder.packIds;
    dirty := false;
    for j := 0 to |ids|
      invariant |ids| == |folder.packIds|
      invariant ids[..j] == RenameList(folder.packIds, oldId, newId)[..j]
      invariant ids[j..] == folder.packIds[j..]
      invariant dirty <==> oldId in folder.packIds[..j]
    {
      assert ids[j] == folder.packIds[j];
      if ids[j] == oldId {
        ids := ids[j := newId];
        dirty := true;
      }
    }
    r := folder.(packIds := ids);
  }

  method RenameInKeys(keys: seq<string>, oldId: string, newId: string) returns (r: seq<string>, dirty: bool)
    ensures r == RenameKeys(keys, oldId, newId)
    ensures dirty <==> exists k | k in keys :: HasPrefix(k, oldId + "|")
  {
    r := keys;
    dirty := false;
    var prefix := oldId + "|";
    for i := 0 to |keys|
      invariant |r| == |keys|
      invariant r[..i] == RenameKeys(keys, oldId, newId)[..i]
      invariant r[i..] == keys[i..]
      invariant dirty <==> exists k | k in keys[..i] :: HasPrefix(k, prefix)
    {
      assert r[i] == keys[i];
      assert keys[..i + 1] == keys[..i] + [keys[i]];
      if HasPrefix(keys[i], prefix) {
        r := r[i := newId + keys[i][|oldId|..]];
        dirty := true;
      }
    }
  }

  method RenameInFolders(fs: seq<Folder>, oldId: string, newId: string) returns (r: seq<Folder>, dirty: bool)
    ensures r == RenameFolders(fs, oldId, newId)
    ensures dirty <==> exists i | 0 <= i < |fs| :: oldId in fs[i].packIds
  {
    r := fs;
    dirty := false;
    for i := 0 to |fs|
      invariant |r| == |fs|
      invariant r[..i] == RenameFolders(fs, oldId, newId)[..i]
      invariant r[i..] == fs[i..]
      invariant dirty <==> exists j | 0 <= j < i :: oldId in fs[j].packIds
    {
      assert r[i] == fs[i];
      var folder, hit := RenameInFolder(r[i], oldId, newId);
      r := r[i := folder];
      dirty := dirty || hit;
    }
  }

  method RenameInList(ids: seq<string>, oldId: string, newId: string) returns (r: seq<string>, dirty: bool)
    ensures r == RenameList(ids, oldId, newId)
    ensures dirty <==> oldId in ids
  {
    r := ids;
    dirty := ListHasId(ids, oldId);
    if dirty {
      r := ReplaceIdInList(ids, oldId, newId);
    }
  }

  /** The stored settings change exactly by the rename, with one write, and only
      when something mentions the old ID. */
  method MigratePackIdReferences(cfg: Config, oldId: string, newId: string)
    modifies cfg
    ensures cfg.writable == old(cfg.writable)
    ensures cfg.settings == if cfg.writable then Renamed(old(cfg.settings), oldId, newId) else old(cfg.settings)
    ensures cfg.writes == old(cfg.writes) + if Mentions(old(cfg.settings), oldId) then 1 else 0
  {
    var s := cfg.settings;
    var folders, inFolders := RenameInFolders(s.folders, oldId, newId);
    var order, inOrder := RenameInList(s.order, oldId, newId);
    var pinned, inPinned := RenameInList(s.pinned, oldId, newId);
    var keys, inKeys := RenameInKeys(s.serverOrder, oldId, newId);
    if inFolders || inOrder || inPinned || inKeys {
      cfg.UpdateSettings(Settings(folders, order, pinned, keys));
    } else {
      Unmentioned(s, oldId, newId);
    }
  }

  lemma Unmentioned(s: Settings, oldId: string, newId: string)
    requires !Mentions(s, oldId)
    ensures Renamed(s, oldId, newId) == s
  {
    assert RenameFolders(s.folders, oldId, newId) == s.folders by {
      forall i | 0 <= i < |s.folders| ensures RenameFolders(s.folders, oldId, newId)[i] == s.folders[i] {
        assert RenameList(s.folders[i].packIds, oldId, newId) == s.folders[i].packIds;
      }
    }
    assert RenameList(s.order, oldId, newId) == s.order;
    assert RenameList(s.pinned, oldId, newId) == s.pinned;
    assert RenameKeys(s.serverOrder, oldId, newId) == s.serverOrder;
  }
}
