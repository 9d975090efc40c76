# GameState save-slot engine, modelled in Dafny

The model covers the save/load engine of the `GameState` Unity asset in
`Runtime/GameState.cs`. The engine keeps one live save record (`GameStateData`) and saves it to
named slots, one JSON file per slot at `{persistentDataPath}\saves\{id}.json`. It loads a slot
back by replacing the live record wholesale. It fires four lifecycle events around these
transitions (before/after save, before/after load). It also lists the slots in the save folder.
Slot names supplied by the caller go through a sanitiser before they become file names.

The project has four modules:

- `Wrappers` (`wrappers.dfy`): the `Option` type.
- `SaveId` (`save_id.dfy`): the pure string rewrites.
  - `SanitizeSaveId` is the slot-id sanitiser. It applies three steps: delete the characters
    outside `[a-zA-Z0-9_ ]`, collapse white-space runs and trim, then turn spaces into
    underscores. Its `warned` flag says whether the warning is logged.
  - `ParseSaveIdFromFileName` deletes every `.json` from a file name.
- `Storage` (`storage.dfy`): the storage as a value. A `Disk` is a map from path to file text
  plus the set of existing directories. The module gives the folder and file path rules,
  directory and file creation, whole-file writes and reads, and the `*.json` listing of the
  save folder.
- `Engine` (`game_state.dfy`):
  - the record datatype and the four events;
  - the serialiser as an abstract `Codec` (`encode` always succeeds; `decode` returns `Option`);
  - the transitions as functions of a `Snapshot` (record, event trace, disk);
  - the class `GameState`. Its fields are the live record, the event trace and the disk. Its
    methods (`SaveToId`, `SaveToFile`, `LoadFromId`, `LoadFromFile`, `Load`, `QuickSave`,
    `QuickLoad`, `GetSaveFolderPath`, `GetSaveFilePath`, `GetAllSaveIds`) are proved against
    those functions.

The model follows the code where it differs from the engine's intended design:

- Only an EMPTY slot name falls back to `"default"`. A non-empty name with no character of
  `[a-zA-Z0-9_]` (`"!!!"`, `"   "`) sanitises to the empty id. The record is then saved to
  `...\saves\.json` and listed as `""` (`SaveId.SanitizeEmptyResult`,
  `Engine.SaveAllInvalidName`).
- For the same reason, sanitising is idempotent only when its result is non-empty
  (`SaveId.SanitizeIdempotent`). `SaveId.SanitizeAllInvalid` shows the failing case.
- Saving fires before-save first and stamps the record afterwards. After-save fires even when
  the write fails. After-load fires only when a load succeeds.
- The write is a plain whole-file write, not an atomic replace.
- Loading a slot that was never saved first creates an empty file for it. The load then
  succeeds exactly when the serialiser accepts the empty text (`Engine.LoadNeverSaved`).

## Model

The rows below state their properties in terms of these definitions (line numbers refer to
Runtime/GameState.cs):

- the path rules `Storage.SaveFolderPath` (line 139), `Storage.SaveFilePath` and
  `SaveId.SaveFileName` (line 156);
- `SaveId.Trim` (line 234);
- the stamping `Engine.Stamp` (lines 40-45) and the read-and-decode `Engine.LoadOutcome`
  (lines 107-110);
- the transition functions `Engine.SaveToIdSpec`, `Engine.SaveToFileSpec`, `Engine.LoadSpec`,
  `Engine.LoadFromFileSpec` and `Engine.LoadFromIdSpec`.

Each of these mirrors the cited source lines directly and carries no contract of its own. The
methods are proved equal to them, and the lemmas state what they mean.

| member | source | states |
|---|---|---|
| `SaveId.SanitizeEmpty` | Runtime/GameState.cs:225-229 | an empty slot name becomes `"default"` with no warning |
| `SaveId.RemoveInvalid` | Runtime/GameState.cs:231-232 | the first rewrite leaves only characters of `[a-zA-Z0-9_ ]`, never lengthens, and keeps a string of such characters as it is |
| `SaveId.RemoveInvalidKeepsIdChars` | Runtime/GameState.cs:231-232 | deleting the invalid characters loses no character of `[a-zA-Z0-9_]`: the result has one exactly when the input has one |
| `SaveId.RemoveInvalidAppend` | Runtime/GameState.cs:232 | deleting invalid characters distributes over concatenation |
| `SaveId.RemoveInvalidChar` | Runtime/GameState.cs:231-232 | a single character is kept if it is in `[a-zA-Z0-9_ ]` and deleted otherwise; with the previous lemma this fixes the first rewrite of every name: the allowed characters stay, in order, and every other one vanishes |
| `SaveId.TrimStart` | Runtime/GameState.cs:234 | the result is a suffix that starts with a non-white character (or is empty), and everything dropped was white space |
| `SaveId.TrimEnd` | Runtime/GameState.cs:234 | the result is a prefix that ends with a non-white character (or is empty), and everything dropped was white space |
| `SaveId.TrimEmpty` | Runtime/GameState.cs:234 | trimming leaves nothing exactly when the string is all white space |
| `SaveId.TrimAllowed` | Runtime/GameState.cs:234 | trimming a string of allowed characters leaves only allowed characters |
| `SaveId.TrimStartWhiteHead` | Runtime/GameState.cs:234 | white space in front of a part that starts with no white space is exactly what trimming the front removes |
| `SaveId.TrimEndWhiteTail` | Runtime/GameState.cs:234 | white space behind a part that ends with no white space is exactly what trimming the back removes |
| `SaveId.TrimStartAppend` | Runtime/GameState.cs:234 | trimming the front of a string that is not all white space never reaches what follows it |
| `SaveId.CollapseWhiteSpace` | Runtime/GameState.cs:233-234 | collapsing empties only the empty string and keeps whether the first character is white space |
| `SaveId.CollapseLeavesSingleSpaces` | Runtime/GameState.cs:233-234 | after collapsing, every white-space character is a plain space and no two white-space characters are adjacent |
| `SaveId.CollapseKeepsCollapsed` | Runtime/GameState.cs:233-234 | collapsing changes nothing in a string that is already collapsed (so collapsing is idempotent) |
| `SaveId.CollapseAllowed` | Runtime/GameState.cs:233-234 | collapsing introduces no character outside `[a-zA-Z0-9_ ]` |
| `SaveId.CollapseAllWhiteSpace` | Runtime/GameState.cs:233-234 | the collapsed string is all white space exactly when the input is |
| `SaveId.CollapseRun` | Runtime/GameState.cs:233-234 | a non-empty run of white space collapses to exactly one space |
| `SaveId.CollapseChar` | Runtime/GameState.cs:233-234 | a character that is not white space is kept |
| `SaveId.CollapseAppend` | Runtime/GameState.cs:233-234 | collapsing works piece by piece wherever the cut does not split a run of white space; with the two previous lemmas this fixes the result for every input: non-white characters stay in order and every maximal run becomes one space |
| `SaveId.SpacesToUnderscores` | Runtime/GameState.cs:235-236 | same length, every space replaced by an underscore, every other character kept |
| `SaveId.SanitizeSaveId` | Runtime/GameState.cs:221-244 | every sanitised id, the default included, is made only of `[a-zA-Z0-9_]`: no space, dot or separator |
| `SaveId.SanitizeEmptyResult` | Runtime/GameState.cs:225-236 | for a non-empty name, the id is empty if and only if the name has no character of `[a-zA-Z0-9_]`; the default is not substituted |
| `SaveId.SanitizeKeepsCleanIds` | Runtime/GameState.cs:231-243 | a non-empty name made only of `[a-zA-Z0-9_]` is returned unchanged, without a warning |
| `SaveId.SanitizeWarns` | Runtime/GameState.cs:238-241 | for a non-empty name, the warning fires if and only if the name holds a character outside `[a-zA-Z0-9_]`, and if and only if the id differs from the name |
| `SaveId.SanitizeIdempotent` | Runtime/GameState.cs:221-244 | for the empty name or any name holding a character of `[a-zA-Z0-9_]`, the id is non-empty, and sanitising it again gives the same id with no warning |
| `SaveId.DefaultIdIsClean` | Runtime/GameState.cs:12 | `"default"` sanitises to itself without a warning |
| `SaveId.SanitizeAllInvalid` | Runtime/GameState.cs:225-236 | `"!!!"` and `"   "` sanitise to `""` with a warning, and sanitising `""` again gives `"default"` |
| `SaveId.SanitizeDropsTrailingInvalid` | Runtime/GameState.cs:231-236 | collapsed words of allowed characters followed by invalid characters sanitise to the words with underscores for spaces |
| `SaveId.SanitizeHelloWorld` | Runtime/GameState.cs:231-236 | `"Hello World!!"` sanitises to `"Hello_World"` with a warning |
| `SaveId.SanitizeSpacedWords` | Runtime/GameState.cs:231-241 | two clean words with any spaces before, between (at least one) and after them sanitise to the words joined by ONE underscore, with a warning |
| `SaveId.SanitizeSpacedHelloWorld` | Runtime/GameState.cs:231-241 | `"  Hello   World  "` sanitises to `"Hello_World"` with a warning: leading, trailing and repeated spaces collapse to a single underscore |
| `SaveId.RemoveAll` | Runtime/GameState.cs:215 | deleting every occurrence of a pattern never lengthens a text, and changes it exactly when the pattern occurs in it |
| `SaveId.ParseSaveIdFromFileName` | Runtime/GameState.cs:213-216 | the parsed id is never longer than the file name, and equals it exactly when the name holds no `.json` |
| `SaveId.RemoveAllAppended` | Runtime/GameState.cs:215 | deleting every occurrence of a pattern from `id + pattern` gives `id` when `id` lacks the pattern's first character |
| `SaveId.ParseSaveIdRoundTrip` | Runtime/GameState.cs:213-216 | for every id without a `.`, parsing the file name `id + ".json"` gives back `id` |
| `SaveId.SanitizedIdRoundTrip` | Runtime/GameState.cs:156 | every sanitised id is recovered from the name of its save file |
| `Storage.ResolveSlotEffect` | Runtime/GameState.cs:154-167 | after resolving a slot: its file exists; a file that existed keeps its text; a new one is empty; no other file changes; the save folder exists; a second resolve is a no-op |
| `Storage.ResolveSlot` | Runtime/GameState.cs:136-167 | resolving a slot adds exactly its save file to the files and the save folder to the directories |
| `Storage.WriteAllText` | Runtime/GameState.cs:64 | an accepted write creates the file if missing and adds no other file; a refused one adds none; no directory changes |
| `Storage.ReadAllText` | Runtime/GameState.cs:107 | a read fails exactly when the file does not exist |
| `Storage.ReadAfterWrite` | Runtime/GameState.cs:64-107 | a read of the written file gives the text of an accepted write and the old outcome after a refused one; a read of any other file is unaffected |
| `Storage.JsonFileNames` | Runtime/GameState.cs:179-181 | every listed name holds no separator and ends in `.json` |
| `Storage.SaveFileIsListed` | Runtime/GameState.cs:156 | the path of a slot's file lies directly in the save folder, matches `*.json`, and has the name `{id}.json` |
| `Storage.ListingAfterResolve` | Runtime/GameState.cs:173-185 | after a clean slot's file is resolved, the listing is the old listing plus that id: naming and listing agree |
| `Storage.ListingAfterWrite` | Runtime/GameState.cs:173-185 | writing an existing file leaves the listing unchanged |
| `Engine.GameState.constructor` | Runtime/GameState.cs:14-15 | the engine starts with the given record, storage and data path, and no events |
| `Engine.GameState.QuickSave` | Runtime/GameState.cs:26-29 | quick-save is a save to `"default"` |
| `Engine.GameState.SaveToId` | Runtime/GameState.cs:35-48 | events are exactly before-save then after-save, whatever the outcome. The record's id, version and date are stamped. The slot's file is created, then overwritten with the encoded record if the write is accepted |
| `Engine.GameState.SaveToFile` | Runtime/GameState.cs:55-72 | the file holds the encoded record if the write is accepted, and nothing changes otherwise; after-save fires either way |
| `Engine.GameState.QuickLoad` | Runtime/GameState.cs:78-81 | quick-load is a load from `"default"`, and succeeds when the default slot's file decodes |
| `Engine.GameState.LoadFromId` | Runtime/GameState.cs:87-95 | the slot name defaults to `"default"`. Before-load fires and the slot's file is created. If its text decodes, the record is replaced and after-load follows; otherwise the record and the trace stay |
| `Engine.GameState.LoadFromFile` | Runtime/GameState.cs:102-119 | success exactly when the file exists and decodes. Success replaces the record and fires after-load; failure changes nothing |
| `Engine.GameState.Load` | Runtime/GameState.cs:125-130 | the given record becomes the live record and after-load fires |
| `Engine.GameState.GetSaveFolderPath` | Runtime/GameState.cs:136-146 | returns `{dataPath}\saves`, which exists afterwards; nothing else changes |
| `Engine.GameState.GetSaveFilePath` | Runtime/GameState.cs:154-167 | the slot id defaults to `"default"`. Returns `{dataPath}\saves\{id}.json`, which exists afterwards; the storage changes exactly as resolving the slot says |
| `Engine.GameState.GetAllSaveIds` | Runtime/GameState.cs:173-185 | returns exactly the set of ids parsed from the names of the `*.json` files in the save folder |
| `Engine.SaveToIdFileEffect` | Runtime/GameState.cs:35-72 | after a save, the slot's file holds the encoded stamped record if the write was accepted; otherwise it holds its old text, or is empty if the save created it. No other file changes |
| `Engine.SaveThenLoad` | Runtime/GameState.cs:35-130 | if the serialiser round-trips, saving and then loading any name with the same sanitised id gives back the stamped record, whose id is that slot's. The events are before-save, after-save, before-load, after-load |
| `Engine.LoadNeverSaved` | Runtime/GameState.cs:87-119 | loading a never-saved slot creates its empty file, and succeeds exactly when the empty text decodes |
| `Engine.ListingAfterSave` | Runtime/GameState.cs:173-185 | after any save, successful or not, the listing is the old listing plus the sanitised id |
| `Engine.ListingAfterSavesABA` | Runtime/GameState.cs:175-184 | saving to clean slots `a`, `b`, `a` from an empty folder lists exactly `{a, b}` |
| `Engine.SaveAllInvalidName` | Runtime/GameState.cs:43-47 | saving under `"!!!"` stamps the empty id, creates `{dataPath}\saves\.json`, and lists `""` |
| `Engine.QuickSaveUsesDefaultSlot` | Runtime/GameState.cs:26-29 | quick-save stamps `"default"` and writes the default slot's file |

## Left out

- `GetAllSaveData` (Runtime/GameState.cs:193-207) is not modelled. It decodes every `*.json`
  file through the foreign decoder into a reference-identity `HashSet`, and one undecodable
  file aborts the whole listing with an exception.
- The JSON serialiser (`JsonUtility`) is a foreign library. It is the abstract `Codec`.
  `Engine.SaveThenLoad` takes its round-trip law (`RoundTrips`) as a precondition; nothing
  proves the law.
- A decoder that returns `null` instead of failing is not modelled. The source would load
  that `null` and fire after-load. Here, decoding yields a record or a failure.
  `Engine.LoadNeverSaved` leaves open what the empty text decodes to. If `JsonUtility` gives
  `null` for it, loading a never-saved slot takes this unmodelled branch. The live record then
  becomes `null` and after-load fires. The next save fails on that `null` (line 40), after
  before-save has fired.
- File I/O, `async`/`await` and exceptions are replaced by the `Disk` value and explicit
  outcomes:
  - whether a write is accepted is the input `writeOk`;
  - a refused write changes nothing, so partial writes are not modelled;
  - a read fails only when the file is missing, so permission and locking failures on reads
    are not modelled.
- Directory and file creation in `GetSaveFolderPath`/`GetSaveFilePath` always succeed here.
  In the source, a failure there escapes `SaveToId`/`LoadFromId` before any after-event.
- `Storage.ListingAfterResolve`, `Engine.ListingAfterSave` and `Engine.ListingAfterSavesABA` take
  `\` as the directory separator. The engine hard-codes `\` in its paths
  (Runtime/GameState.cs:139 and :156). On macOS, Linux, Android and iOS `\` is an ordinary
  file-name character. There a save creates a file named `{dataPath}\saves\{id}.json` next to
  the save folder, the folder stays empty, and naming and listing do not agree. Only Windows
  treats `\` as a separator, and there the next point applies as well. So these lemmas
  describe the engine's intended file layout, not any one stock platform.
- A `null` slot name is not modelled: strings here are never null. In the source it is not
  the empty string, so it reaches `Regex.Replace`, which throws. By then before-save or
  before-load has fired, and a save has already stamped the version and the date.
- The field initialiser of `GameStateData` (Runtime/GameStateData.cs:12) is not modelled. The
  engine receives its live record from the host and never builds a fresh one.
- `Storage.ResolveSlotEffect`, `Storage.ListingAfterResolve`, `Engine.ListingAfterSave`,
  `Engine.ListingAfterSavesABA` and `Engine.LoadNeverSaved` compare paths and the `*.json`
  pattern case-sensitively. A Windows file system folds letter case. There, ids that differ
  only in case share one file and one listed id. After saving `"slot"` and then `"Slot"`,
  Windows lists only `"slot"`, while the model lists both. Loading `"Slot"` reads `slot.json`,
  where the model treats that slot as never saved.
- `DateTime.Now` with its locale formatting, `Application.version` and
  `Application.persistentDataPath` are the inputs `now`, `version` and `dataPath`.
- `Debug.LogWarning` is the `warned` flag of `SaveId.SanitizeSaveId`. `Debug.LogError` is a
  `false` outcome of the save and load methods.
- Event subscribers and their dispatch are not modelled. The trace records that each
  notification fired. An observer that throws is not modelled.
- `GameStateData` is a reference type in the source, and stamping mutates the instance the
  host may also hold. Here the record is a value, so aliasing is not modelled.
- Concurrency between saves and loads is not modelled.
- Editor/GameStateEditor.cs and Samples/ are not modelled. They are inspector buttons and demo
  gameplay with no engine logic.
