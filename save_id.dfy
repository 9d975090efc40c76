/** Slot-id rules of the save engine: the sanitiser that turns a caller-supplied
    slot name into a file-name token, and the reverse step that recovers a slot id
    from the name of a save file. Both are pure string rewrites. */
module SaveId {

  /** The slot used by quick-save and quick-load, and the replacement for an empty id. */
  const DEFAULT_SAVE_ID: string := "default"

  /** The extension of every save file. */
  const JSON_EXTENSION: string := ".json"

  /** Characters the first rewrite keeps: the class `[a-zA-Z0-9_ ]`. */
  predicate IsAllowed(c: char) {
    'a' <= c <= 'z' || 'A' <= c <= 'Z' || '0' <= c <= '9' || c == '_' || c == ' '
  }

  /** Characters a clean slot id is made of: the class `[a-zA-Z0-9_]`. */
  predicate IsIdChar(c: char) {
    IsAllowed(c) && c != ' '
  }

  /** White space as the regular-expression class `\s` and string trimming see it:
      the control characters 9 to 13, U+0085, and the Unicode separators. */
  predicate IsWhiteSpace(c: char) {
    var n := c as int;
    n == 0x20 || 0x09 <= n <= 0x0D || n == 0x85 || n == 0xA0 || n == 0x1680
    || 0x2000 <= n <= 0x200A || n == 0x2028 || n == 0x2029 || n == 0x202F
    || n == 0x205F || n == 0x3000
  }

  predicate IsCleanId(s: string) {
    forall i :: 0 <= i < |s| ==> IsIdChar(s[i])
  }

  predicate HasIdChar(s: string) {
    exists i :: 0 <= i < |s| && IsIdChar(s[i])
  }

  predicate AllAllowed(s: string) {
    forall i :: 0 <= i < |s| ==> IsAllowed(s[i])
  }

  predicate AllWhiteSpace(s: string) {
    forall i :: 0 <= i < |s| ==> IsWhiteSpace(s[i])
  }

  /** The outcome of sanitising: the id to use, and whether a warning was logged. */
  datatype Sanitized = Sanitized(id: string, warned: bool)

  /** Step 1: delete every character outside `[a-zA-Z0-9_ ]`. */
  function RemoveInvalid(s: string): (r: string)
    ensures |r| <= |s|
    ensures AllAllowed(r)
    ensures AllAllowed(s) ==> r == s
  {
    if s == [] then []
    else if IsAllowed(s[0]) then [s[0]] + RemoveInvalid(s[1..])
    else RemoveInvalid(s[1..])
  }

  /** Drops the white space at the front of `s`. */
  function TrimStart(s: string): (r: string)
    ensures |r| <= |s| && r == s[|s| - |r|..]
    ensures r == [] || !IsWhiteSpace(r[0])
    ensures forall i :: 0 <= i < |s| - |r| ==> IsWhiteSpace(s[i])
  {
    if s != [] && IsWhiteSpace(s[0]) then TrimStart(s[1..]) else s
  }

  /** Drops the white space at the back of `s`. */
  function TrimEnd(s: string): (r: string)
    ensures |r| <= |s| && r == s[..|r|]
    ensures r == [] || !IsWhiteSpace(r[|r| - 1])
    ensures forall i :: |r| <= i < |s| ==> IsWhiteSpace(s[i])
  {
    if s != [] && IsWhiteSpace(s[|s| - 1]) then TrimEnd(s[..|s| - 1]) else s
  }

  /** Trimming both ends, as string trimming does. */
  function Trim(s: string): string {
    TrimEnd(TrimStart(s))
  }

  /** Step 2: every maximal run of white space becomes one space. */
  function CollapseWhiteSpace(s: string): (r: string)
    ensures s == [] <==> r == []
    ensures r != [] ==> (IsWhiteSpace(r[0]) <==> IsWhiteSpace(s[0]))
    decreases |s|
  {
    if s == [] then []
    else if IsWhiteSpace(s[0]) then " " + CollapseWhiteSpace(TrimStart(s[1..]))
    else [s[0]] + CollapseWhiteSpace(s[1..])
  }

  /** Step 3: every space becomes an underscore. */
  function SpacesToUnderscores(s: string): (r: string)
    ensures |r| == |s|
    ensures forall i :: 0 <= i < |s| ==> r[i] == (if s[i] == ' ' then '_' else s[i])
  {
    seq(|s|, i requires 0 <= i < |s| => if s[i] == ' ' then '_' else s[i])
  }

  /** The slot-id sanitiser. An empty id is replaced by the default slot; any other
      id is rewritten by the three steps, and a warning is logged when the rewrite
      changed it. A non-empty id with no character of `[a-zA-Z0-9_]` comes out
      EMPTY: the fallback looks at the input, not at the output. */
  function SanitizeSaveId(raw: string): (r: Sanitized)
    ensures IsCleanId(r.id)
  {
    if raw == [] then Sanitized(DEFAULT_SAVE_ID, false)
    else
      var kept := RemoveInvalid(raw);
      CollapseAllowed(kept);
      var collapsed := CollapseWhiteSpace(kept);
      TrimAllowed(collapsed);
      var id := SpacesToUnderscores(Trim(collapsed));
      Sanitized(id, id != raw)
  }

  /** `pattern` occurs in `s` starting at index `i`. */
  predicate OccursAt(pattern: string, s: string, i: nat) {
    i + |pattern| <= |s| && s[i..i + |pattern|] == pattern
  }

  /** `pattern` occurs somewhere in `s`. */
  predicate Occurs(pattern: string, s: string) {
    exists i :: 0 <= i <= |s| && OccursAt(pattern, s, i)
  }

  /** Deletes every occurrence of `pattern`, scanning left to right without overlaps,
      as string replacement by the empty string does. Only characters are deleted, and
      the text changes exactly when the pattern occurs in it. */
  function RemoveAll(s: string, pattern: string): (r: string)
    requires pattern != []
    ensures |r| <= |s|
    ensures r == s <==> !Occurs(pattern, s)
    decreases |s|
  {
    if |s| < |pattern| then s
    else if s[..|pattern|] == pattern then
      assert OccursAt(pattern, s, 0);
      RemoveAll(s[|pattern|..], pattern)
    else
      OccursTail(pattern, s);
      [s[0]] + RemoveAll(s[1..], pattern)
  }

  /** When `pattern` does not start `s`, it occurs in `s` exactly when it occurs in the
      tail of `s`. */
  lemma OccursTail(pattern: string, s: string)
    requires pattern != [] && |pattern| <= |s| && s[..|pattern|] != pattern
    ensures Occurs(pattern, s) <==> Occurs(pattern, s[1..])
  {
    if Occurs(pattern, s) {
      var i :| 0 <= i <= |s| && OccursAt(pattern, s, i);
      assert i != 0 by {
        assert s[0..|pattern|] == s[..|pattern|];
      }
      assert s[1..][i - 1..i - 1 + |pattern|] == s[i..i + |pattern|];
      assert OccursAt(pattern, s[1..], i - 1);
    }
    if Occurs(pattern, s[1..]) {
      var i :| 0 <= i <= |s[1..]| && OccursAt(pattern, s[1..], i);
      assert s[i + 1..i + 1 + |pattern|] == s[1..][i..i + |pattern|];
      assert OccursAt(pattern, s, i + 1);
    }
  }

  /** The name of the save file of slot `id`. */
  function SaveFileName(id: string): string {
    id + JSON_EXTENSION
  }

  /** Recovers a slot id from a save file's name by deleting every ".json" in it; a name
      without ".json" is its own id. */
  function ParseSaveIdFromFileName(fileName: string): (id: string)
    ensures |id| <= |fileName|
    ensures id == fileName <==> !Occurs(JSON_EXTENSION, fileName)
  {
    RemoveAll(fileName, JSON_EXTENSION)
  }

  // ---------------------------------------------------------------------------
  // Properties of the sanitiser

  /** An empty id becomes the default slot, without a warning. */
  lemma SanitizeEmpty()
    ensures SanitizeSaveId("") == Sanitized(DEFAULT_SAVE_ID, false)
  {
  }

  /** A string holds an id character exactly when its head is one or its tail holds one. */
  lemma HasIdCharCons(s: string)
    requires s != []
    ensures HasIdChar(s) <==> IsIdChar(s[0]) || HasIdChar(s[1..])
  {
    if HasIdChar(s) && !IsIdChar(s[0]) {
      var i :| 0 <= i < |s| && IsIdChar(s[i]);
      assert s[1..][i - 1] == s[i];
    }
    if HasIdChar(s[1..]) {
      var i :| 0 <= i < |s[1..]| && IsIdChar(s[1..][i]);
      assert s[i + 1] == s[1..][i];
    }
  }

  /** Deleting the characters outside `[a-zA-Z0-9_ ]` keeps every id character. */
  lemma {:induction false} RemoveInvalidKeepsIdChars(s: string)
    ensures HasIdChar(RemoveInvalid(s)) <==> HasIdChar(s)
  {
    if s != [] {
      RemoveInvalidKeepsIdChars(s[1..]);
      HasIdCharCons(s);
      if IsAllowed(s[0]) {
        var r := RemoveInvalid(s);
        assert r[0] == s[0] && r[1..] == RemoveInvalid(s[1..]);
        HasIdCharCons(r);
      }
    }
  }

  /** Trimming leaves nothing exactly when the string is all white space. */
  lemma TrimEmpty(s: string)
    ensures Trim(s) == [] <==> AllWhiteSpace(s)
  {
  }

  /** Trimming keeps a string of allowed characters allowed. */
  lemma TrimAllowed(s: string)
    requires AllAllowed(s)
    ensures AllAllowed(Trim(s))
  {
    var t := TrimStart(s);
    assert AllAllowed(t) by {
      forall i | 0 <= i < |t| ensures IsAllowed(t[i]) {
        assert t[i] == s[|s| - |t| + i];
      }
    }
  }

  /** White space occurs only as single spaces. */
  ghost predicate IsCollapsed(s: string) {
    (forall i :: 0 <= i < |s| && IsWhiteSpace(s[i]) ==> s[i] == ' ') &&
    (forall i, j :: 0 <= i < j < |s| && j == i + 1 ==> !(IsWhiteSpace(s[i]) && IsWhiteSpace(s[j])))
  }

  /** Collapsing leaves white space only as single spaces. */
  lemma {:induction false} CollapseLeavesSingleSpaces(s: string)
    ensures IsCollapsed(CollapseWhiteSpace(s))
    decreases |s|
  {
    if s != [] {
      var r := CollapseWhiteSpace(s);
      var t := if IsWhiteSpace(s[0]) then TrimStart(s[1..]) else s[1..];
      CollapseLeavesSingleSpaces(t);
      var rest := CollapseWhiteSpace(t);
      assert r == [r[0]] + rest;
      assert IsWhiteSpace(s[0]) ==> rest == [] || !IsWhiteSpace(rest[0]);
      forall i, j | 0 <= i < j < |r| && j == i + 1 ensures !(IsWhiteSpace(r[i]) && IsWhiteSpace(r[j])) {
        assert r[j] == rest[j - 1];
        if i > 0 {
          assert r[i] == rest[i - 1];
        }
      }
    }
  }

  /** Collapsing changes nothing in a string whose white space is already single spaces. */
  lemma {:induction false} CollapseKeepsCollapsed(s: string)
    requires IsCollapsed(s)
    ensures CollapseWhiteSpace(s) == s
    decreases |s|
  {
    if s != [] {
      assert IsCollapsed(s[1..]) by {
        forall i, j | 0 <= i < j < |s[1..]| && j == i + 1 ensures !(IsWhiteSpace(s[1..][i]) && IsWhiteSpace(s[1..][j])) {
          assert s[1..][i] == s[i + 1] && s[1..][j] == s[j + 1];
        }
      }
      if IsWhiteSpace(s[0]) {
        assert TrimStart(s[1..]) == s[1..];
      }
      CollapseKeepsCollapsed(s[1..]);
    }
  }

  /** Collapsing introduces no character but the space. */
  lemma {:induction false} CollapseAllowed(s: string)
    requires AllAllowed(s)
    ensures AllAllowed(CollapseWhiteSpace(s))
    decreases |s|
  {
    if s != [] {
      var t := if IsWhiteSpace(s[0]) then TrimStart(s[1..]) else s[1..];
      assert AllAllowed(t) by {
        forall i | 0 <= i < |t| ensures IsAllowed(t[i]) {
          assert t[i] == s[|s| - |t| + i];
        }
      }
      CollapseAllowed(t);
    }
  }

  /** Collapsing gives all white space exactly when the input was all white space. */
  lemma {:induction false} CollapseAllWhiteSpace(s: string)
    ensures AllWhiteSpace(CollapseWhiteSpace(s)) <==> AllWhiteSpace(s)
  {
    var r := CollapseWhiteSpace(s);
    if s != [] && !IsWhiteSpace(s[0]) {
      assert !IsWhiteSpace(r[0]);
    } else if s != [] {
      var t := TrimStart(s[1..]);
      var rest := CollapseWhiteSpace(t);
      assert r == " " + rest;
      if rest != [] {
        assert !IsWhiteSpace(t[0]);
        assert !IsWhiteSpace(r[1]);
      }
      assert AllWhiteSpace(r) <==> t == [];
      assert AllWhiteSpace(s[1..]) <==> t == [] by {
        if t != [] {
          assert s[1..][|s[1..]| - |t|] == t[0];
        }
      }
      assert AllWhiteSpace(s) <==> AllWhiteSpace(s[1..]) by {
        if AllWhiteSpace(s[1..]) {
          forall i | 0 < i < |s| ensures IsWhiteSpace(s[i]) {
            assert s[i] == s[1..][i - 1];
          }
        }
      }
    }
  }

  /** A string of allowed characters is all white space exactly when it has no id character. */
  lemma AllowedWhiteSpace(s: string)
    requires AllAllowed(s)
    ensures AllWhiteSpace(s) <==> !HasIdChar(s)
  {
  }

  /** A non-empty id that contains no character of `[a-zA-Z0-9_]` sanitises to the EMPTY id,
      and only such an id does: the default slot is never substituted for it. */
  lemma SanitizeEmptyResult(raw: string)
    requires raw != []
    ensures SanitizeSaveId(raw).id == [] <==> !HasIdChar(raw)
  {
    var kept := RemoveInvalid(raw);
    var collapsed := CollapseWhiteSpace(kept);
    RemoveInvalidKeepsIdChars(raw);
    AllowedWhiteSpace(kept);
    CollapseAllowed(kept);
    CollapseAllWhiteSpace(kept);
    TrimEmpty(collapsed);
  }

  /** A non-empty id made only of `[a-zA-Z0-9_]` is returned unchanged, without a warning. */
  lemma SanitizeKeepsCleanIds(raw: string)
    requires raw != [] && IsCleanId(raw)
    ensures SanitizeSaveId(raw) == Sanitized(raw, false)
  {
    assert IsCollapsed(raw);
    CollapseKeepsCollapsed(raw);
    assert TrimStart(raw) == raw;
    assert TrimEnd(raw) == raw;
    assert SpacesToUnderscores(raw) == raw;
  }

  /** For a non-empty id the warning fires exactly when the id holds a character
      outside `[a-zA-Z0-9_]`, that is, exactly when sanitising changes it. */
  lemma SanitizeWarns(raw: string)
    requires raw != []
    ensures SanitizeSaveId(raw).warned <==> !IsCleanId(raw)
    ensures SanitizeSaveId(raw).warned <==> SanitizeSaveId(raw).id != raw
  {
    if IsCleanId(raw) {
      SanitizeKeepsCleanIds(raw);
    }
  }

  /** Sanitising is idempotent whenever its result is not empty, that is, for the empty
      name and for every name holding a character of `[a-zA-Z0-9_]`. */
  lemma SanitizeIdempotent(raw: string)
    requires raw == [] || HasIdChar(raw)
    ensures SanitizeSaveId(raw).id != []
    ensures SanitizeSaveId(SanitizeSaveId(raw).id) == SanitizeSaveId(raw).(warned := false)
  {
    if raw != [] {
      SanitizeEmptyResult(raw);
    }
    SanitizeKeepsCleanIds(SanitizeSaveId(raw).id);
  }

  /** The default slot id is already clean. */
  lemma DefaultIdIsClean()
    ensures SanitizeSaveId(DEFAULT_SAVE_ID) == Sanitized(DEFAULT_SAVE_ID, false)
  {
    SanitizeKeepsCleanIds(DEFAULT_SAVE_ID);
  }

  /** Ids made only of invalid characters or of spaces come out empty, with a warning,
      and sanitising that empty result again yields the default slot: idempotence
      fails here. */
  lemma SanitizeAllInvalid(raw: string)
    requires raw == "!!!" || raw == "   "
    ensures SanitizeSaveId(raw) == Sanitized("", true)
    ensures SanitizeSaveId(SanitizeSaveId(raw).id).id == DEFAULT_SAVE_ID
  {
    assert !HasIdChar(raw);
    SanitizeEmptyResult(raw);
  }

  /** Deleting invalid characters works piece by piece. */
  lemma {:induction false} RemoveInvalidAppend(a: string, b: string)
    ensures RemoveInvalid(a + b) == RemoveInvalid(a) + RemoveInvalid(b)
  {
    if a != [] {
      assert (a + b)[0] == a[0] && (a + b)[1..] == a[1..] + b;
      RemoveInvalidAppend(a[1..], b);
      assert a + b != [];
      if IsAllowed(a[0]) {
        assert RemoveInvalid(a + b) == [a[0]] + (RemoveInvalid(a[1..]) + RemoveInvalid(b));
        assert RemoveInvalid(a) == [a[0]] + RemoveInvalid(a[1..]);
      } else {
        assert RemoveInvalid(a + b) == RemoveInvalid(a[1..]) + RemoveInvalid(b);
        assert RemoveInvalid(a) == RemoveInvalid(a[1..]);
      }
    } else {
      assert a + b == b;
    }
  }

  /** Words already in canonical form, followed by characters that are all invalid,
      sanitise to the words with their spaces turned into underscores. */
  lemma SanitizeDropsTrailingInvalid(words: string, junk: string)
    requires words != [] && AllAllowed(words) && IsCollapsed(words)
    requires !IsWhiteSpace(words[0]) && !IsWhiteSpace(words[|words| - 1])
    requires RemoveInvalid(junk) == []
    ensures SanitizeSaveId(words + junk).id == SpacesToUnderscores(words)
  {
    var raw := words + junk;
    RemoveInvalidAppend(words, junk);
    assert RemoveInvalid(raw) == words;
    CollapseKeepsCollapsed(words);
    assert TrimStart(words) == words;
    assert TrimEnd(words) == words;
    assert raw != [];
  }

  /** "Hello World" is already in canonical form. */
  lemma HelloWorldIsCanonical(words: string)
    requires words == "Hello World"
    ensures AllAllowed(words) && IsCollapsed(words)
    ensures !IsWhiteSpace(words[0]) && !IsWhiteSpace(words[|words| - 1])
  {
    assert AllAllowed(words);
  }

  /** The space of "Hello World" becomes an underscore. */
  lemma HelloWorldUnderscored(words: string)
    requires words == "Hello World"
    ensures SpacesToUnderscores(words) == "Hello_World"
  {
  }

  /** Invalid characters vanish and the space between words becomes one underscore. */
  lemma SanitizeHelloWorld(raw: string)
    requires raw == "Hello World!!"
    ensures SanitizeSaveId(raw) == Sanitized("Hello_World", true)
  {
    var words, junk := "Hello World", "!!";
    assert raw == words + junk;
    HelloWorldIsCanonical(words);
    assert RemoveInvalid(junk) == [];
    SanitizeDropsTrailingInvalid(words, junk);
    HelloWorldUnderscored(words);
  }

  // ---------------------------------------------------------------------------
  // What each step does to a whole name: with the append lemmas, these fix the
  // result of every step for every input

  /** Deleting invalid characters keeps an allowed character and drops any other. */
  lemma RemoveInvalidChar(c: char)
    ensures RemoveInvalid([c]) == (if IsAllowed(c) then [c] else [])
  {
  }

  /** Leading white space in front of a part that does not start with white space is
      exactly what trimming the front removes. */
  lemma {:induction false} TrimStartWhiteHead(w: string, p: string)
    requires AllWhiteSpace(w)
    requires p == [] || !IsWhiteSpace(p[0])
    ensures TrimStart(w + p) == p
  {
    if w == [] {
      assert w + p == p;
    } else {
      assert (w + p)[0] == w[0] && (w + p)[1..] == w[1..] + p;
      TrimStartWhiteHead(w[1..], p);
    }
  }

  /** Trailing white space behind a part that does not end with white space is exactly
      what trimming the back removes. */
  lemma {:induction false} TrimEndWhiteTail(p: string, w: string)
    requires AllWhiteSpace(w)
    requires p == [] || !IsWhiteSpace(p[|p| - 1])
    ensures TrimEnd(p + w) == p
  {
    if w == [] {
      assert p + w == p;
    } else {
      var s := p + w;
      assert s[|s| - 1] == w[|w| - 1] && s[..|s| - 1] == p + w[..|w| - 1];
      TrimEndWhiteTail(p, w[..|w| - 1]);
    }
  }

  /** Trimming the front of a string that is not all white space never reaches what
      follows it. */
  lemma {:induction false} TrimStartAppend(a: string, b: string)
    requires !AllWhiteSpace(a)
    ensures TrimStart(a + b) == TrimStart(a) + b
  {
    var ab := a + b;
    assert ab[0] == a[0];
    if IsWhiteSpace(a[0]) {
      assert ab[1..] == a[1..] + b;
      NotAllWhiteSpaceTail(a);
      TrimStartAppend(a[1..], b);
    }
  }

  /** A non-empty run of white space collapses to one space. */
  lemma CollapseRun(w: string)
    requires w != [] && AllWhiteSpace(w)
    ensures CollapseWhiteSpace(w) == " "
  {
    TrimStartWhiteHead(w[1..], []);
    assert w[1..] + [] == w[1..];
  }

  /** Collapsing keeps a character that is not white space. */
  lemma CollapseChar(c: char)
    requires !IsWhiteSpace(c)
    ensures CollapseWhiteSpace([c]) == [c]
  {
    assert [c][1..] == [];
  }

  /** A white-space character followed by white space only collapses to one space, and
      so it does in front of a part that starts with no white space. */
  lemma CollapseWhiteHead(a: string, b: string)
    requires a != [] && AllWhiteSpace(a)
    requires b == [] || !IsWhiteSpace(b[0])
    ensures CollapseWhiteSpace(a + b) == " " + CollapseWhiteSpace(b)
  {
    var ab := a + b;
    assert ab[0] == a[0] && ab[1..] == a[1..] + b;
    TrimStartWhiteHead(a[1..], b);
  }

  /** Collapsing works piece by piece, as long as the cut does not split a run of white
      space: the non-white characters stay, in order, and every run becomes one space. */
  lemma {:induction false} CollapseAppend(a: string, b: string)
    requires a == [] || b == [] || !(IsWhiteSpace(a[|a| - 1]) && IsWhiteSpace(b[0]))
    ensures CollapseWhiteSpace(a + b) == CollapseWhiteSpace(a) + CollapseWhiteSpace(b)
    decreases |a|
  {
    if a == [] {
      assert a + b == b;
    } else if !IsWhiteSpace(a[0]) {
      var ab := a + b;
      assert ab[0] == a[0] && ab[1..] == a[1..] + b;
      CollapseAppend(a[1..], b);
    } else if AllWhiteSpace(a) {
      CollapseWhiteHead(a, b);
      CollapseRun(a);
    } else {
      CollapseWhiteTail(a, b);
    }
  }

  /** Trimming the front of a string that is not all white space keeps its last character. */
  lemma TrimStartKeepsLast(s: string)
    requires !AllWhiteSpace(s)
    ensures TrimStart(s) != [] && TrimStart(s)[|TrimStart(s)| - 1] == s[|s| - 1]
  {
    var t := TrimStart(s);
    assert t == s[|s| - |t|..];
  }

  /** The step of `CollapseAppend` for a string that starts with white space but is not
      all white space: the leading run is cut off, and the rest is shorter. */
  lemma {:induction false} CollapseWhiteTail(a: string, b: string)
    requires a != [] && IsWhiteSpace(a[0]) && !AllWhiteSpace(a)
    requires b == [] || !(IsWhiteSpace(a[|a| - 1]) && IsWhiteSpace(b[0]))
    ensures CollapseWhiteSpace(a + b) == CollapseWhiteSpace(a) + CollapseWhiteSpace(b)
    decreases |a|, 0
  {
    var t := TrimStart(a[1..]);
    NotAllWhiteSpaceTail(a);
    TrimStartKeepsLast(a[1..]);
    CollapseWhiteHeadAppend(a, b);
    CollapseWhiteHeadTrimsOnlyHead(a, b);
    CollapseWhiteStep(a);
    CollapseAppend(t, b);
    ConcatAssoc(" ", CollapseWhiteSpace(t), CollapseWhiteSpace(b));
  }

  /** One step of collapsing `a + b` at the leading white space of `a`. */
  lemma CollapseWhiteHeadAppend(a: string, b: string)
    requires a != [] && IsWhiteSpace(a[0])
    ensures CollapseWhiteSpace(a + b) == " " + CollapseWhiteSpace(TrimStart(a[1..] + b))
  {
    var ab := a + b;
    assert ab[0] == a[0] && ab[1..] == a[1..] + b;
    CollapseWhiteStep(ab);
  }

  /** After the leading white space of `a + b` collapses, the trim that follows stops inside
      `a` when the rest of `a` is not all white space, and `b` is kept whole. */
  lemma CollapseWhiteHeadTrimsOnlyHead(a: string, b: string)
    requires a != [] && !AllWhiteSpace(a[1..])
    requires CollapseWhiteSpace(a + b) == " " + CollapseWhiteSpace(TrimStart(a[1..] + b))
    ensures CollapseWhiteSpace(a + b) == " " + CollapseWhiteSpace(TrimStart(a[1..]) + b)
  {
    TrimStartAppend(a[1..], b);
  }

  /** A string that starts with white space but is not all white space has a tail that
      is not all white space. */
  lemma NotAllWhiteSpaceTail(a: string)
    requires a != [] && IsWhiteSpace(a[0]) && !AllWhiteSpace(a)
    ensures !AllWhiteSpace(a[1..])
  {
    var i :| 0 <= i < |a| && !IsWhiteSpace(a[i]);
    assert a[1..][i - 1] == a[i];
  }

  /** Concatenation is associative. */
  lemma ConcatAssoc(x: string, y: string, z: string)
    ensures x + (y + z) == (x + y) + z
  {
  }

  /** One step of collapsing at a leading white-space character. */
  lemma CollapseWhiteStep(s: string)
    requires s != [] && IsWhiteSpace(s[0])
    ensures CollapseWhiteSpace(s) == " " + CollapseWhiteSpace(TrimStart(s[1..]))
  {
  }

  /** Only spaces. */
  predicate AllSpaces(s: string) {
    forall i :: 0 <= i < |s| ==> s[i] == ' '
  }

  /** An id character is never white space. */
  lemma IdCharNotWhiteSpace(c: char)
    requires IsIdChar(c)
    ensures !IsWhiteSpace(c)
  {
  }

  /** A clean id is left alone by collapsing. */
  lemma CollapseCleanId(w: string)
    requires IsCleanId(w)
    ensures CollapseWhiteSpace(w) == w
  {
    assert IsCollapsed(w);
    CollapseKeepsCollapsed(w);
  }

  /** Turning spaces into underscores joins two clean words with one underscore. */
  lemma UnderscoreBetween(w1: string, w2: string)
    requires IsCleanId(w1) && IsCleanId(w2)
    ensures SpacesToUnderscores(w1 + " " + w2) == w1 + "_" + w2
  {
    var s := w1 + " " + w2;
    var r := SpacesToUnderscores(s);
    forall i | 0 <= i < |s| ensures r[i] == (w1 + "_" + w2)[i] {
      if i < |w1| {
        assert s[i] == w1[i];
      } else if i > |w1| {
        assert s[i] == w2[i - |w1| - 1];
      }
    }
  }

  /** Allowed characters on both sides make an allowed string. */
  lemma AllAllowedAppend(x: string, y: string)
    requires AllAllowed(x) && AllAllowed(y)
    ensures AllAllowed(x + y)
  {
    forall i | 0 <= i < |x + y| ensures IsAllowed((x + y)[i]) {
      if i >= |x| {
        assert (x + y)[i] == y[i - |x|];
      }
    }
  }

  /** Spaces, a word and a run of spaces: collapsing keeps the word and leaves one space
      behind it. */
  lemma CollapseSpacedWord(s1: string, w1: string, s2: string)
    requires w1 != [] && IsCleanId(w1)
    requires AllSpaces(s1) && s2 != [] && AllSpaces(s2)
    ensures CollapseWhiteSpace(s1 + w1 + s2) == CollapseWhiteSpace(s1) + w1 + " "
  {
    var x2 := s1 + w1;
    IdCharNotWhiteSpace(w1[0]);
    IdCharNotWhiteSpace(w1[|w1| - 1]);
    assert x2[|x2| - 1] == w1[|w1| - 1];
    CollapseAppend(s1, w1);
    CollapseAppend(x2, s2);
    CollapseCleanId(w1);
    CollapseRun(s2);
  }

  /** Words and the spaces around them: collapsing cuts at every word boundary. */
  lemma CollapseSpacedWords(s1: string, w1: string, s2: string, w2: string, s3: string)
    requires w1 != [] && IsCleanId(w1) && w2 != [] && IsCleanId(w2)
    requires AllSpaces(s1) && s2 != [] && AllSpaces(s2) && AllSpaces(s3)
    ensures CollapseWhiteSpace(s1 + w1 + s2 + w2 + s3)
            == CollapseWhiteSpace(s1) + w1 + " " + w2 + CollapseWhiteSpace(s3)
  {
    var x3 := s1 + w1 + s2;
    var x4 := x3 + w2;
    IdCharNotWhiteSpace(w2[0]);
    IdCharNotWhiteSpace(w2[|w2| - 1]);
    assert x4[|x4| - 1] == w2[|w2| - 1];
    assert x3[|x3| - 1] == s2[|s2| - 1];
    CollapseSpacedWord(s1, w1, s2);
    CollapseAppend(x3, w2);
    CollapseAppend(x4, s3);
    CollapseCleanId(w2);
  }

  /** Trimming the collapsed form of spaced words leaves the words and the one space
      between them. */
  lemma TrimSpacedWords(c1: string, w1: string, w2: string, c3: string)
    requires w1 != [] && IsCleanId(w1) && w2 != [] && IsCleanId(w2)
    requires c1 == [] || c1 == " "
    requires c3 == [] || c3 == " "
    ensures Trim(c1 + w1 + " " + w2 + c3) == w1 + " " + w2
  {
    var words := w1 + " " + w2;
    assert c1 + w1 + " " + w2 + c3 == c1 + (words + c3);
    IdCharNotWhiteSpace(w1[0]);
    IdCharNotWhiteSpace(w2[|w2| - 1]);
    assert (words + c3)[0] == w1[0];
    assert words[|words| - 1] == w2[|w2| - 1];
    TrimStartWhiteHead(c1, words + c3);
    TrimEndWhiteTail(words, c3);
  }

  /** Two clean words with spaces around and between them sanitise to the words joined
      by ONE underscore, with a warning: leading and trailing spaces are dropped and a
      run of spaces becomes a single underscore. */
  lemma SanitizeSpacedWords(s1: string, w1: string, s2: string, w2: string, s3: string)
    requires w1 != [] && IsCleanId(w1) && w2 != [] && IsCleanId(w2)
    requires AllSpaces(s1) && s2 != [] && AllSpaces(s2) && AllSpaces(s3)
    ensures SanitizeSaveId(s1 + w1 + s2 + w2 + s3) == Sanitized(w1 + "_" + w2, true)
  {
    var raw := s1 + w1 + s2 + w2 + s3;
    assert RemoveInvalid(raw) == raw by {
      AllAllowedAppend(s1, w1);
      AllAllowedAppend(s1 + w1, s2);
      AllAllowedAppend(s1 + w1 + s2, w2);
      AllAllowedAppend(s1 + w1 + s2 + w2, s3);
    }
    var c1 := CollapseWhiteSpace(s1);
    var c3 := CollapseWhiteSpace(s3);
    assert c1 == [] || c1 == " " by {
      if s1 != [] { CollapseRun(s1); }
    }
    assert c3 == [] || c3 == " " by {
      if s3 != [] { CollapseRun(s3); }
    }
    CollapseSpacedWords(s1, w1, s2, w2, s3);
    TrimSpacedWords(c1, w1, w2, c3);
    UnderscoreBetween(w1, w2);
    assert raw[|s1| + |w1|] == ' ';
    assert !IsIdChar(raw[|s1| + |w1|]);
  }

  /** "  Hello   World  " cut into its runs of spaces and its words. */
  lemma SpacedHelloWorldParts(raw: string, s1: string, w1: string, s2: string, w2: string, s3: string)
    requires raw == "  Hello   World  "
    requires s1 == "  " && w1 == "Hello" && s2 == "   " && w2 == "World" && s3 == "  "
    ensures raw == s1 + w1 + s2 + w2 + s3
    ensures w1 != [] && IsCleanId(w1) && w2 != [] && IsCleanId(w2)
    ensures AllSpaces(s1) && s2 != [] && AllSpaces(s2) && AllSpaces(s3)
    ensures w1 + "_" + w2 == "Hello_World"
  {
  }

  /** Leading, trailing and repeated spaces: "  Hello   World  " gives "Hello_World". */
  lemma SanitizeSpacedHelloWorld(raw: string)
    requires raw == "  Hello   World  "
    ensures SanitizeSaveId(raw) == Sanitized("Hello_World", true)
  {
    var s1, w1, s2, w2, s3 := "  ", "Hello", "   ", "World", "  ";
    SpacedHelloWorldParts(raw, s1, w1, s2, w2, s3);
    SanitizeSpacedWords(s1, w1, s2, w2, s3);
  }

  // ---------------------------------------------------------------------------
  // Properties of the file-name parser

  lemma {:induction false} RemoveAllAppended(id: string, pattern: string)
    requires pattern != [] && pattern[0] !in id
    ensures RemoveAll(id + pattern, pattern) == id
  {
    var s := id + pattern;
    if id == [] {
      assert s[..|pattern|] == pattern;
      assert s[|pattern|..] == [];
    } else {
      assert s[0] == id[0] != pattern[0];
      assert s[..|pattern|] != pattern;
      assert s[1..] == id[1..] + pattern;
      RemoveAllAppended(id[1..], pattern);
    }
  }

  /** Naming a save file and parsing its name round-trips for every id without a '.'. */
  lemma ParseSaveIdRoundTrip(id: string)
    requires '.' !in id
    ensures ParseSaveIdFromFileName(SaveFileName(id)) == id
  {
    RemoveAllAppended(id, JSON_EXTENSION);
  }

  /** Every id the sanitiser produces is recovered from its save file's name. */
  lemma SanitizedIdRoundTrip(raw: string)
    ensures var id := SanitizeSaveId(raw).id;
            ParseSaveIdFromFileName(SaveFileName(id)) == id
  {
    var id := SanitizeSaveId(raw).id;
    assert forall i :: 0 <= i < |id| ==> id[i] != '.';
    ParseSaveIdRoundTrip(id);
  }
}
