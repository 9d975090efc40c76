/** The storage the save engine works on, as a value: a map from file path to file
    text and the set of existing directories. It gives the path rules of the save
    folder, the effects of directory and file creation, of writing and reading a
    file, and the listing of the save files in the save folder. */
module Storage {
  import opened Wrappers
  import opened SaveId

  datatype Disk = Disk(files: map<string, string>, dirs: set<string>)

  /** The path separator the engine writes into every path. */
  const SEPARATOR: string := "\\"

  /** `{dataPath}\saves`, the folder that holds every save file. */
  function SaveFolderPath(dataPath: string): string {
    dataPath + SEPARATOR + "saves"
  }

  /** `{dataPath}\saves\{id}.json`, the save file of slot `id`. */
  function SaveFilePath(dataPath: string, id: string): string {
    SaveFolderPath(dataPath) + SEPARATOR + SaveFileName(id)
  }

  /** Creating a directory, which succeeds whether or not it exists. */
  function CreateDirectory(d: Disk, dir: string): Disk {
    d.(dirs := d.dirs + {dir})
  }

  /** Creating an empty file at `path` unless a file is already there. */
  function CreateFileIfAbsent(d: Disk, path: string): Disk {
    if path in d.files then d else d.(files := d.files[path := ""])
  }

  /** The effect of resolving the save file of slot `id`: the save folder and the
      file are created when they are missing. */
  function ResolveSlot(d: Disk, dataPath: string, id: string): (r: Disk)
    ensures r.files.Keys == d.files.Keys + {SaveFilePath(dataPath, id)}
    ensures r.dirs == d.dirs + {SaveFolderPath(dataPath)}
  {
    CreateFileIfAbsent(CreateDirectory(d, SaveFolderPath(dataPath)), SaveFilePath(dataPath, id))
  }

  /** Writing the whole text of a file; `ok` is false when the environment refuses
      the write, and then nothing changes. A write creates the file when it is missing
      and never touches a directory. */
  function WriteAllText(d: Disk, path: string, text: string, ok: bool): (r: Disk)
    ensures r.files.Keys == if ok then d.files.Keys + {path} else d.files.Keys
    ensures r.dirs == d.dirs
  {
    if ok then d.(files := d.files[path := text]) else d
  }

  /** Reading the whole text of a file, which fails exactly when there is no file. */
  function ReadAllText(d: Disk, path: string): (r: Option<string>)
    ensures r.Some? <==> path in d.files
  {
    if path in d.files then Some(d.files[path]) else None
  }

  predicate EndsWith(s: string, suffix: string) {
    |suffix| <= |s| && s[|s| - |suffix|..] == suffix
  }

  /** `path` names a file directly inside `folder` that matches the pattern `*.json`. */
  predicate IsSaveFileIn(folder: string, path: string) {
    |path| > |folder| + 1 && path[..|folder| + 1] == folder + SEPARATOR &&
    '\\' !in path[|folder| + 1..] && EndsWith(path[|folder| + 1..], JSON_EXTENSION)
  }

  /** The names of the `*.json` files directly inside `folder`, as a directory listing
      gives them. */
  function JsonFileNames(d: Disk, folder: string): (names: set<string>)
    ensures forall n :: n in names ==> '\\' !in n && EndsWith(n, JSON_EXTENSION)
  {
    set p | p in d.files && IsSaveFileIn(folder, p) :: p[|folder| + 1..]
  }

  /** The slot ids parsed from a set of file names; equal ids are listed once. */
  ghost function ParseAll(names: set<string>): set<string> {
    set n | n in names :: ParseSaveIdFromFileName(n)
  }

  /** The slot ids the save folder lists. */
  ghost function SaveIdsOnDisk(d: Disk, dataPath: string): set<string> {
    ParseAll(JsonFileNames(d, SaveFolderPath(dataPath)))
  }

  // ---------------------------------------------------------------------------
  // Properties

  /** After resolving a slot, its file exists; a file that existed keeps its text and a
      new one is empty; no other file changes; the save folder exists; and resolving
      the same slot again changes nothing. */
  lemma ResolveSlotEffect(d: Disk, dataPath: string, id: string)
    ensures var r := ResolveSlot(d, dataPath, id);
            var path := SaveFilePath(dataPath, id);
            path in r.files &&
            r.files[path] == (if path in d.files then d.files[path] else "") &&
            (forall p :: p != path ==> (p in r.files <==> p in d.files)) &&
            (forall p :: p != path && p in d.files ==> r.files[p] == d.files[p]) &&
            r.dirs == d.dirs + {SaveFolderPath(dataPath)} &&
            ResolveSlot(r, dataPath, id) == r
  {
  }

  /** A read sees the last accepted write to its file, and only that file's. */
  lemma ReadAfterWrite(d: Disk, path: string, text: string, ok: bool, other: string)
    ensures ReadAllText(WriteAllText(d, path, text, ok), path)
            == if ok then Some(text) else ReadAllText(d, path)
    ensures other != path ==>
            ReadAllText(WriteAllText(d, path, text, ok), other) == ReadAllText(d, other)
  {
  }

  /** The file of a slot whose id has no separator is listed under the name `{id}.json`. */
  lemma SaveFileIsListed(dataPath: string, id: string)
    requires '\\' !in id
    ensures var folder := SaveFolderPath(dataPath);
            var path := SaveFilePath(dataPath, id);
            IsSaveFileIn(folder, path) && path[|folder| + 1..] == SaveFileName(id)
  {
    var folder := SaveFolderPath(dataPath);
    var path := SaveFilePath(dataPath, id);
    var name := SaveFileName(id);
    assert path == (folder + SEPARATOR) + name;
    assert path[..|folder| + 1] == folder + SEPARATOR;
    assert path[|folder| + 1..] == name;
    assert name[|name| - |JSON_EXTENSION|..] == JSON_EXTENSION;
  }

  /** Listing and naming agree: once a clean slot's file is resolved, the listing
      holds exactly the ids it held before plus that slot. */
  lemma ListingAfterResolve(d: Disk, dataPath: string, id: string)
    requires IsCleanId(id)
    ensures SaveIdsOnDisk(ResolveSlot(d, dataPath, id), dataPath) == SaveIdsOnDisk(d, dataPath) + {id}
  {
    var folder := SaveFolderPath(dataPath);
    var path := SaveFilePath(dataPath, id);
    var r := ResolveSlot(d, dataPath, id);
    assert '\\' !in id && '.' !in id by {
      assert forall i :: 0 <= i < |id| ==> id[i] != '\\' && id[i] != '.';
    }
    SaveFileIsListed(dataPath, id);
    ParseSaveIdRoundTrip(id);
    assert r.files.Keys == d.files.Keys + {path};
    assert JsonFileNames(r, folder) == JsonFileNames(d, folder) + {SaveFileName(id)};
  }

  /** Writing an existing file does not change the listing. */
  lemma ListingAfterWrite(d: Disk, dataPath: string, path: string, text: string, ok: bool)
    requires path in d.files
    ensures SaveIdsOnDisk(WriteAllText(d, path, text, ok), dataPath) == SaveIdsOnDisk(d, dataPath)
  {
    assert WriteAllText(d, path, text, ok).files.Keys == d.files.Keys;
  }
}
