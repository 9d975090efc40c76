/** The save-slot engine: one live save record, the lifecycle events fired around
    saving and loading it, and the storage it is saved to. The serialiser is a
    parameter, the clock and the application version are inputs, and whether the
    environment accepts a write is an input as well. */
module Engine {
  import opened Wrappers
  import opened SaveId
  import opened Storage

  /** The application-defined part of a save, which the engine never inspects. */
  type Payload(!new)

  /** One save record: the three fields the engine stamps, and the payload. */
  datatype GameStateData = GameStateData(
    saveId: string,
    applicationVersion: string,
    saveDateTime: string,
    payload: Payload)

  /** The four lifecycle notifications, in the order the engine fires them. */
  datatype Event = BeforeSave | AfterSave | BeforeLoad | AfterLoad

  /** The serialiser, left abstract: encoding always gives a text, decoding may fail. */
  datatype Codec = Codec(encode: GameStateData -> string, decode: string -> Option<GameStateData>)

  /** The serialiser gives back every record it encoded. */
  ghost predicate RoundTrips(codec: Codec) {
    forall d :: codec.decode(codec.encode(d)) == Some(d)
  }

  /** Everything a save or a load can change: the live record, the events fired so
      far, and the storage. */
  datatype Snapshot = Snapshot(data: GameStateData, trace: seq<Event>, disk: Disk)

  /** The fields a save overwrites before writing the record. */
  function Stamp(data: GameStateData, id: string, version: string, now: string): GameStateData {
    data.(saveId := id, applicationVersion := version, saveDateTime := now)
  }

  /** The record read back from `path`, if the file exists and its text decodes. */
  function LoadOutcome(disk: Disk, codec: Codec, path: string): Option<GameStateData> {
    match ReadAllText(disk, path)
    case None => None
    case Some(text) => codec.decode(text)
  }

  // ---------------------------------------------------------------------------
  // The transitions, as functions of the state before them

  function SaveToFileSpec(s: Snapshot, codec: Codec, path: string, writeOk: bool): Snapshot {
    s.(disk := WriteAllText(s.disk, path, codec.encode(s.data), writeOk), trace := s.trace + [AfterSave])
  }

  function SaveToIdSpec(s: Snapshot, codec: Codec, dataPath: string, raw: string,
                        version: string, now: string, writeOk: bool): Snapshot
  {
    var id := SanitizeSaveId(raw).id;
    var stamped := s.(data := Stamp(s.data, id, version, now),
                      trace := s.trace + [BeforeSave],
                      disk := ResolveSlot(s.disk, dataPath, id));
    SaveToFileSpec(stamped, codec, SaveFilePath(dataPath, id), writeOk)
  }

  function LoadSpec(s: Snapshot, data: GameStateData): Snapshot {
    s.(data := data, trace := s.trace + [AfterLoad])
  }

  function LoadFromFileSpec(s: Snapshot, codec: Codec, path: string): Snapshot {
    match LoadOutcome(s.disk, codec, path)
    case None => s
    case Some(d) => LoadSpec(s, d)
  }

  function LoadFromIdSpec(s: Snapshot, codec: Codec, dataPath: string, raw: string): Snapshot {
    var id := SanitizeSaveId(raw).id;
    var resolved := s.(trace := s.trace + [BeforeLoad], disk := ResolveSlot(s.disk, dataPath, id));
    LoadFromFileSpec(resolved, codec, SaveFilePath(dataPath, id))
  }

  // ---------------------------------------------------------------------------
  // The engine object

  class GameState {
    /** The application's data directory; the save folder lives inside it. */
    const dataPath: string
    const codec: Codec
    /** The live record. */
    var data: GameStateData
    /** Every lifecycle event fired so far, oldest first. */
    var trace: seq<Event>
    var disk: Disk

    function State(): Snapshot
      reads this
    {
      Snapshot(data, trace, disk)
    }

    constructor (dataPath: string, codec: Codec, data: GameStateData, disk: Disk)
      ensures this.dataPath == dataPath && this.codec == codec
      ensures this.data == data && this.disk == disk && trace == []
    {
      this.dataPath := dataPath;
      this.codec := codec;
      this.data := data;
      this.disk := disk;
      trace := [];
    }

    /** Saves the live record to the default slot. */
    method QuickSave(version: string, now: string, writeOk: bool) returns (ok: bool)
      modifies this
      ensures ok == writeOk
      ensures State() == SaveToIdSpec(old(State()), codec, dataPath, DEFAULT_SAVE_ID, version, now, writeOk)
    {
      ok := SaveToId(DEFAULT_SAVE_ID, version, now, writeOk);
    }

    /** Saves the live record to the slot named `saveId`: fires before-save, stamps the
        version, the date and the sanitised slot id into the record, creates the slot's
        file if needed, and writes the record; after-save fires even when the write fails. */
    method SaveToId(saveId: string, version: string, now: string, writeOk: bool) returns (ok: bool)
      modifies this
      ensures ok == writeOk
      ensures trace == old(trace) + [BeforeSave, AfterSave]
      ensures data == Stamp(old(data), SanitizeSaveId(saveId).id, version, now)
      ensures var id := SanitizeSaveId(saveId).id;
              disk == WriteAllText(ResolveSlot(old(disk), dataPath, id), SaveFilePath(dataPath, id), codec.encode(data), ok)
      ensures State() == SaveToIdSpec(old(State()), codec, dataPath, saveId, version, now, writeOk)
    {
      trace := trace + [BeforeSave];
      data := data.(applicationVersion := version, saveDateTime := now);
      var id := SanitizeSaveId(saveId).id;
      data := data.(saveId := id);
      var path := GetSaveFilePath(id);
      ok := SaveToFile(path, writeOk);
    }

    /** Writes the live record to `path`; `ok` is false when the write was refused (the
        error is logged). After-save fires either way. */
    method SaveToFile(path: string, writeOk: bool) returns (ok: bool)
      modifies this`disk, this`trace
      ensures ok == writeOk
      ensures disk == WriteAllText(old(disk), path, codec.encode(data), ok)
      ensures trace == old(trace) + [AfterSave]
      ensures State() == SaveToFileSpec(old(State()), codec, path, writeOk)
    {
      var text := codec.encode(data);
      if writeOk {
        disk := disk.(files := disk.files[path := text]);
      }
      ok := writeOk;
      trace := trace + [AfterSave];
    }

    /** Loads the live record from the default slot. */
    method QuickLoad() returns (ok: bool)
      modifies this
      ensures ok == LoadOutcome(disk, codec, SaveFilePath(dataPath, DEFAULT_SAVE_ID)).Some?
      ensures State() == LoadFromIdSpec(old(State()), codec, dataPath, DEFAULT_SAVE_ID)
    {
      DefaultIdIsClean();
      ok := LoadFromId(DEFAULT_SAVE_ID);
    }

    /** Loads the live record from the slot named `saveId`: fires before-load, creates the
        slot's file if needed, and loads it. On success the decoded record replaces the
        live one and after-load fires; on failure the live record stays and nothing more
        fires. */
    method LoadFromId(saveId: string := DEFAULT_SAVE_ID) returns (ok: bool)
      modifies this
      ensures var id := SanitizeSaveId(saveId).id;
              disk == ResolveSlot(old(disk), dataPath, id) &&
              ok == LoadOutcome(disk, codec, SaveFilePath(dataPath, id)).Some? &&
              data == (if ok then LoadOutcome(disk, codec, SaveFilePath(dataPath, id)).value else old(data))
      ensures trace == old(trace) + [BeforeLoad] + (if ok then [AfterLoad] else [])
      ensures State() == LoadFromIdSpec(old(State()), codec, dataPath, saveId)
    {
      ghost var before := State();
      trace := trace + [BeforeLoad];
      var id := SanitizeSaveId(saveId).id;
      var path := GetSaveFilePath(id);
      ghost var resolved := State();
      ok := LoadFromFile(path);
      assert State() == LoadFromFileSpec(resolved, codec, path);
      assert resolved == before.(trace := before.trace + [BeforeLoad],
                                 disk := ResolveSlot(before.disk, dataPath, id));
    }

    /** Loads the live record from `path`. A missing file or a text that does not decode
        is a failure (the error is logged): the live record stays and no event fires. */
    method LoadFromFile(path: string) returns (ok: bool)
      modifies this`data, this`trace
      ensures ok == LoadOutcome(disk, codec, path).Some?
      ensures data == (if ok then LoadOutcome(disk, codec, path).value else old(data))
      ensures trace == old(trace) + (if ok then [AfterLoad] else [])
      ensures State() == LoadFromFileSpec(old(State()), codec, path)
    {
      ok := false;
      if path in disk.files {
        var text := disk.files[path];
        var decoded := codec.decode(text);
        if decoded.Some? {
          Load(decoded.value);
          ok := true;
        }
      }
    }

    /** Replaces the live record and fires after-load. */
    method Load(gameStateData: GameStateData)
      modifies this`data, this`trace
      ensures data == gameStateData
      ensures trace == old(trace) + [AfterLoad]
    {
      data := gameStateData;
      trace := trace + [AfterLoad];
    }

    /** The save folder's path; the folder is created when it is missing. */
    method GetSaveFolderPath() returns (folder: string)
      modifies this`disk
      ensures folder == SaveFolderPath(dataPath)
      ensures folder in disk.dirs
      ensures disk == CreateDirectory(old(disk), folder)
    {
      folder := dataPath + "\\saves";
      if folder !in disk.dirs {
        disk := disk.(dirs := disk.dirs + {folder});
      }
    }

    /** The path of the save file of slot `saveId`; the folder and an empty file are
        created when they are missing. */
    method GetSaveFilePath(saveId: string := DEFAULT_SAVE_ID) returns (path: string)
      modifies this`disk
      ensures path == SaveFilePath(dataPath, saveId)
      ensures path in disk.files
      ensures disk == ResolveSlot(old(disk), dataPath, saveId)
    {
      var folder := GetSaveFolderPath();
      path := folder + "\\" + saveId + ".json";
      if path !in disk.files {
        disk := disk.(files := disk.files[path := ""]);
      }
    }

    /** The ids of all slots in the save folder, each listed once, parsed from the names of
        its `*.json` files without opening them. The folder is created when missing. */
    method GetAllSaveIds() returns (ids: set<string>)
      modifies this`disk
      ensures disk == CreateDirectory(old(disk), SaveFolderPath(dataPath))
      ensures ids == SaveIdsOnDisk(disk, dataPath)
    {
      var folder := GetSaveFolderPath();
      var names := JsonFileNames(disk, folder);
      ids := {};
      var pending := names;
      while pending != {}
        invariant pending <= names
        invariant ids == ParseAll(names - pending)
        decreases pending
      {
        var name :| name in pending;
        ids := ids + {ParseSaveIdFromFileName(name)};
        pending := pending - {name};
      }
    }
  }

  // ---------------------------------------------------------------------------
  // Properties that relate several transitions

  /** Saving writes the stamped record into the slot's file when the write is accepted;
      when it is refused the file keeps what it had (empty if the save created it). No
      other file changes either way. */
  lemma SaveToIdFileEffect(s: Snapshot, codec: Codec, dataPath: string, raw: string,
                           version: string, now: string, writeOk: bool)
    ensures var r := SaveToIdSpec(s, codec, dataPath, raw, version, now, writeOk);
            var path := SaveFilePath(dataPath, SanitizeSaveId(raw).id);
            path in r.disk.files &&
            r.disk.files[path] == (if writeOk then codec.encode(r.data)
                                   else if path in s.disk.files then s.disk.files[path] else "") &&
            (forall p :: p != path ==> (p in r.disk.files <==> p in s.disk.files)) &&
            (forall p :: p != path && p in s.disk.files ==> r.disk.files[p] == s.disk.files[p])
  {
    ResolveSlotEffect(s.disk, dataPath, SanitizeSaveId(raw).id);
  }

  /** Saving to a slot and then loading any name that sanitises to the same slot gives
      back the saved record, stamped with that slot's id: the loaded record's id always
      names the slot it came from. All four events fire once, in order. */
  lemma SaveThenLoad(s: Snapshot, codec: Codec, dataPath: string, saveName: string,
                     loadName: string, version: string, now: string)
    requires RoundTrips(codec)
    requires SanitizeSaveId(saveName).id == SanitizeSaveId(loadName).id
    ensures var saved := SaveToIdSpec(s, codec, dataPath, saveName, version, now, true);
            var loaded := LoadFromIdSpec(saved, codec, dataPath, loadName);
            loaded.data == saved.data &&
            loaded.data == Stamp(s.data, SanitizeSaveId(loadName).id, version, now) &&
            loaded.trace == s.trace + [BeforeSave, AfterSave, BeforeLoad, AfterLoad] &&
            loaded.disk == saved.disk
  {
    var id := SanitizeSaveId(saveName).id;
    var saved := SaveToIdSpec(s, codec, dataPath, saveName, version, now, true);
    SaveToIdFileEffect(s, codec, dataPath, saveName, version, now, true);
    ResolveSlotEffect(saved.disk, dataPath, id);
    assert codec.decode(codec.encode(saved.data)) == Some(saved.data);
  }

  /** Loading a slot that was never saved creates its empty file and succeeds exactly
      when the serialiser accepts the empty text. */
  lemma LoadNeverSaved(s: Snapshot, codec: Codec, dataPath: string, raw: string)
    requires SaveFilePath(dataPath, SanitizeSaveId(raw).id) !in s.disk.files
    ensures var r := LoadFromIdSpec(s, codec, dataPath, raw);
            r.disk.files == s.disk.files[SaveFilePath(dataPath, SanitizeSaveId(raw).id) := ""] &&
            r.data == (if codec.decode("").Some? then codec.decode("").value else s.data) &&
            r.trace == s.trace + [BeforeLoad] + (if codec.decode("").Some? then [AfterLoad] else [])
  {
    var id := SanitizeSaveId(raw).id;
    var path := SaveFilePath(dataPath, id);
    var resolved := ResolveSlot(s.disk, dataPath, id);
    assert resolved.files == s.disk.files[path := ""];
    assert ReadAllText(resolved, path) == Some("");
  }

  /** After a save, whether or not its write was accepted, the save folder lists the
      slot's sanitised id in addition to what it listed before. */
  lemma ListingAfterSave(s: Snapshot, codec: Codec, dataPath: string, raw: string,
                         version: string, now: string, writeOk: bool)
    ensures SaveIdsOnDisk(SaveToIdSpec(s, codec, dataPath, raw, version, now, writeOk).disk, dataPath)
            == SaveIdsOnDisk(s.disk, dataPath) + {SanitizeSaveId(raw).id}
  {
    var id := SanitizeSaveId(raw).id;
    var resolved := ResolveSlot(s.disk, dataPath, id);
    ListingAfterResolve(s.disk, dataPath, id);
    ResolveSlotEffect(s.disk, dataPath, id);
    ListingAfterWrite(resolved, dataPath, SaveFilePath(dataPath, id), codec.encode(Stamp(s.data, id, version, now)), writeOk);
  }

  /** Saving to slot `a`, then `b`, then `a` again, from a save folder with no save
      files, lists exactly the two slots: ids are a set, so `a` is listed once. */
  lemma ListingAfterSavesABA(s: Snapshot, codec: Codec, dataPath: string, a: string, b: string,
                             version: string, now: string, w1: bool, w2: bool, w3: bool)
    requires a != [] && IsCleanId(a) && b != [] && IsCleanId(b)
    requires SaveIdsOnDisk(s.disk, dataPath) == {}
    ensures var s1 := SaveToIdSpec(s, codec, dataPath, a, version, now, w1);
            var s2 := SaveToIdSpec(s1, codec, dataPath, b, version, now, w2);
            var s3 := SaveToIdSpec(s2, codec, dataPath, a, version, now, w3);
            SaveIdsOnDisk(s3.disk, dataPath) == {a, b}
  {
    var s1 := SaveToIdSpec(s, codec, dataPath, a, version, now, w1);
    var s2 := SaveToIdSpec(s1, codec, dataPath, b, version, now, w2);
    SanitizeKeepsCleanIds(a);
    SanitizeKeepsCleanIds(b);
    ListingAfterSave(s, codec, dataPath, a, version, now, w1);
    ListingAfterSave(s1, codec, dataPath, b, version, now, w2);
    ListingAfterSave(s2, codec, dataPath, a, version, now, w3);
  }

  /** Saving under a name with no valid character files the record under the EMPTY slot
      id: the file `{dataPath}\saves\.json`, listed as "". */
  lemma SaveAllInvalidName(s: Snapshot, codec: Codec, dataPath: string,
                           version: string, now: string, writeOk: bool)
    ensures var r := SaveToIdSpec(s, codec, dataPath, "!!!", version, now, writeOk);
            r.data.saveId == "" &&
            SaveFilePath(dataPath, "") in r.disk.files &&
            "" in SaveIdsOnDisk(r.disk, dataPath)
  {
    SanitizeAllInvalid("!!!");
    SaveToIdFileEffect(s, codec, dataPath, "!!!", version, now, writeOk);
    ListingAfterSave(s, codec, dataPath, "!!!", version, now, writeOk);
  }

  /** Quick-save writes the default slot's file and stamps the default slot id. */
  lemma QuickSaveUsesDefaultSlot(s: Snapshot, codec: Codec, dataPath: string,
                                 version: string, now: string, writeOk: bool)
    ensures var r := SaveToIdSpec(s, codec, dataPath, DEFAULT_SAVE_ID, version, now, writeOk);
            r.data.saveId == DEFAULT_SAVE_ID &&
            r.disk == WriteAllText(ResolveSlot(s.disk, dataPath, DEFAULT_SAVE_ID),
                                   SaveFilePath(dataPath, DEFAULT_SAVE_ID), codec.encode(r.data), writeOk)
  {
    DefaultIdIsClean();
  }
}
