// The installer of the backend (`ModUpdater` in `core/mod_manager.rs`):
// the folder-name sanitiser, how the destination folder is named, and
// the create / backup / remove / copy sequence that moves a downloaded
// mod into the game's mods folder. The file system is the map of
// `FileSystem`; `query_mod_id` is `ModQuery.QueryModId`.

module ModManager {
  import opened Common
  import opened FileSystem
  import opened ModQuery

  // ---------------------------------------------------------------
  // sanitize_folder_name

  /** The characters the sanitiser drops: the nine reserved ones and U+0000 to U+001F. */
  predicate Forbidden(c: char)
  {
    c == '<' || c == '>' || c == ':' || c == '"' || c == '/' || c == '\\'
    || c == '|' || c == '?' || c == '*' || c <= '\U{1F}'
  }

  /** Step 1: the characters of `s` that are not forbidden, in order. */
  function DropForbidden(s: string): (r: string)
    ensures |r| <= |s|
    ensures Allowed(r)
    ensures Allowed(s) ==> r == s
  {
    if |s| == 0 then ""
    else if Forbidden(s[0]) then DropForbidden(s[1..])
    else [s[0]] + DropForbidden(s[1..])
  }

  /** No forbidden character anywhere in `s`. */
  predicate Allowed(s: string)
  {
    forall i :: 0 <= i < |s| ==> !Forbidden(s[i])
  }

  predicate NoWhitespace(s: string)
  {
    forall i :: 0 <= i < |s| ==> !IsWhitespace(s[i])
  }

  /** The longest prefix of `s` without whitespace. */
  function TakeWord(s: string): (w: string)
    ensures |w| <= |s| && w == s[..|w|] && NoWhitespace(w)
    ensures |w| < |s| ==> IsWhitespace(s[|w|])
  {
    if |s| == 0 || IsWhitespace(s[0]) then "" else [s[0]] + TakeWord(s[1..])
  }

  /** The first word of a trimmed suffix, and what follows it, keep a text free of forbidden characters. */
  lemma WordStepAllowed(s: string, t: string, w: string)
    requires |t| <= |s| && t == s[|s| - |t|..] && |w| <= |t| && w == t[..|w|]
    ensures Allowed(s) ==> Allowed(t[|w|..]) && Allowed(w)
  {
    if Allowed(s) {
      assert forall i :: 0 <= i < |t| ==> t[i] == s[|s| - |t| + i];
    }
  }

  /** `split_whitespace`: the maximal runs of non-whitespace characters, in order. */
  function Words(s: string): (ws: seq<string>)
    ensures forall i :: 0 <= i < |ws| ==> |ws[i]| > 0 && NoWhitespace(ws[i])
    ensures Allowed(s) ==> forall i :: 0 <= i < |ws| ==> Allowed(ws[i])
    decreases |s|
  {
    var t := TrimStartBy(s, IsWhitespace);
    if |t| == 0 then []
    else
      var w := TakeWord(t);
      assert |w| > 0 by {
        assert !IsWhitespace(t[0]);
      }
      WordStepAllowed(s, t, w);
      var rest := Words(t[|w|..]);
      ConsWords(w, rest);
      [w] + rest
  }

  /** A first word and the later words, each non-empty and without whitespace, make a list of such words. */
  lemma ConsWords(w: string, rest: seq<string>)
    requires |w| > 0 && NoWhitespace(w) && forall i :: 0 <= i < |rest| ==> |rest[i]| > 0 && NoWhitespace(rest[i])
    ensures forall i :: 0 <= i < |[w] + rest| ==> |([w] + rest)[i]| > 0 && NoWhitespace(([w] + rest)[i])
    ensures Allowed(w) && (forall i :: 0 <= i < |rest| ==> Allowed(rest[i])) ==>
              forall i :: 0 <= i < |[w] + rest| ==> Allowed(([w] + rest)[i])
  {
    assert forall i :: 0 < i < |[w] + rest| ==> ([w] + rest)[i] == rest[i - 1];
  }

  /** The only whitespace is a plain space, never two in a row. */
  ghost predicate SingleSpaced(s: string)
  {
    && (forall i :: 0 <= i < |s| && IsWhitespace(s[i]) ==> s[i] == ' ')
    && (forall i, j :: 0 <= i < j < |s| && j == i + 1 ==> !(IsWhitespace(s[i]) && IsWhitespace(s[j])))
  }

  /** Joining non-empty words with single spaces leaves no whitespace at either end. */
  lemma {:induction false} JoinWordsShape(ws: seq<string>)
    requires forall i :: 0 <= i < |ws| ==> |ws[i]| > 0 && NoWhitespace(ws[i])
    ensures SingleSpaced(JoinWith(ws, " "))
    ensures |JoinWith(ws, " ")| > 0 ==>
              !IsWhitespace(JoinWith(ws, " ")[0]) && !IsWhitespace(JoinWith(ws, " ")[|JoinWith(ws, " ")| - 1])
    ensures |ws| > 0 ==> |JoinWith(ws, " ")| > 0
    ensures (forall i :: 0 <= i < |ws| ==> Allowed(ws[i])) ==> Allowed(JoinWith(ws, " "))
  {
    if |ws| > 1 {
      var rest := JoinWith(ws[1..], " ");
      JoinWordsShape(ws[1..]);
      var r := ws[0] + " " + rest;
      assert r == JoinWith(ws, " ");
      forall i | 0 <= i < |r| - 1
        ensures !(IsWhitespace(r[i]) && IsWhitespace(r[i + 1]))
      {
        if i < |ws[0]| - 1 {
        } else if i == |ws[0]| - 1 {
        } else if i == |ws[0]| {
          assert r[i + 1] == rest[0];
        } else {
          assert r[i] == rest[i - |ws[0]| - 1] && r[i + 1] == rest[i - |ws[0]|];
        }
      }
      if forall i :: 0 <= i < |ws| ==> Allowed(ws[i]) {
        forall i | 0 <= i < |r|
          ensures !Forbidden(r[i])
        {
          if i > |ws[0]| {
            assert r[i] == rest[i - |ws[0]| - 1];
          }
        }
      }
    }
  }

  /** Step 2: `split_whitespace` joined with single spaces. */
  function Collapse(s: string): (r: string)
    ensures SingleSpaced(r)
    ensures |r| > 0 ==> !IsWhitespace(r[0]) && !IsWhitespace(r[|r| - 1])
    ensures Allowed(s) ==> Allowed(r)
  {
    JoinWordsShape(Words(s));
    JoinWith(Words(s), " ")
  }

  /** Slicing keeps a text free of forbidden characters and single-spaced. */
  lemma SliceKeeps(s: string, a: nat, b: nat)
    requires a <= b <= |s|
    ensures Allowed(s) ==> Allowed(s[a..b])
    ensures SingleSpaced(s) ==> SingleSpaced(s[a..b])
  {
    var t := s[a..b];
    assert forall i :: 0 <= i < |t| ==> t[i] == s[a + i];
  }

  lemma {:induction false} TrimStartKeeps(s: string, drop: char -> bool)
    ensures Allowed(s) ==> Allowed(TrimStartBy(s, drop))
    ensures SingleSpaced(s) ==> SingleSpaced(TrimStartBy(s, drop))
  {
    if |s| > 0 && drop(s[0]) {
      SliceKeeps(s, 1, |s|);
      assert s[1..|s|] == s[1..];
      TrimStartKeeps(s[1..], drop);
    }
  }

  lemma {:induction false} TrimEndKeeps(s: string, drop: char -> bool)
    ensures Allowed(s) ==> Allowed(TrimEndBy(s, drop))
    ensures SingleSpaced(s) ==> SingleSpaced(TrimEndBy(s, drop))
  {
    if |s| > 0 && drop(s[|s| - 1]) {
      SliceKeeps(s, 0, |s| - 1);
      assert s[0..|s| - 1] == s[..|s| - 1];
      TrimEndKeeps(s[..|s| - 1], drop);
    }
  }

  /** Trimming characters that satisfy `drop` keeps both properties. */
  function TrimKeeping(s: string, drop: char -> bool): (r: string)
    ensures r == TrimBy(s, drop)
    ensures Allowed(s) ==> Allowed(r)
    ensures SingleSpaced(s) ==> SingleSpaced(r)
  {
    TrimStartKeeps(s, drop);
    TrimEndKeeps(TrimStartBy(s, drop), drop);
    TrimBy(s, drop)
  }

  predicate DotOrWhitespace(c: char)
  {
    c == '.' || IsWhitespace(c)
  }

  /** The text after filtering, collapsing whitespace and trimming dots and whitespace. */
  function Cleaned(name: string): (r: string)
    ensures Allowed(r) && SingleSpaced(r)
    ensures |r| > 0 ==> !DotOrWhitespace(r[0]) && !DotOrWhitespace(r[|r| - 1])
  {
    var kept := DropForbidden(name);
    var collapsed := Collapse(kept);
    var trimmed := TrimKeeping(collapsed, IsWhitespace);
    TrimKeeping(trimmed, DotOrWhitespace)
  }

  /** The longest a sanitised name gets (the source counts UTF-8 bytes; the model counts characters). */
  const MaxNameLength: nat := 200

  /** Cutting a cleaned text and trimming whitespace keeps a prefix that loses at most one space. */
  lemma CutPrefix(s: string, n: nat)
    requires 0 < n <= |s| && SingleSpaced(s) && !IsWhitespace(s[0])
    ensures TrimBy(s[..n], IsWhitespace) == s[..|TrimBy(s[..n], IsWhitespace)|]
    ensures n - 1 <= |TrimBy(s[..n], IsWhitespace)| <= n
  {
    var c := s[..n];
    assert TrimStartBy(c, IsWhitespace) == c by {
      assert !IsWhitespace(c[0]);
    }
    var r := TrimEndBy(c, IsWhitespace);
    assert r == c[..|r|];
    if n >= 2 {
      assert c[n - 2] == s[n - 2] && c[n - 1] == s[n - 1];
      assert !(IsWhitespace(c[n - 2]) && IsWhitespace(c[n - 1]));
    }
  }

  /** The name used when nothing is left of the title. */
  const FallbackName: string := "Mod"

  lemma FallbackNameShape()
    ensures |FallbackName| == 3 && Allowed(FallbackName) && SingleSpaced(FallbackName)
    ensures !DotOrWhitespace(FallbackName[0]) && !DotOrWhitespace(FallbackName[2])
  {
    var m := FallbackName;
    assert m[0] == 'M' && m[1] == 'o' && m[2] == 'd';
    assert forall i :: 0 <= i < 3 ==> m[i] == 'M' || m[i] == 'o' || m[i] == 'd';
  }

  /** The length cut: the first 200 characters with trailing whitespace trimmed. */
  function Cut(cleaned: string): (r: string)
    requires |cleaned| > MaxNameLength && Allowed(cleaned) && SingleSpaced(cleaned)
    requires !DotOrWhitespace(cleaned[0])
    ensures MaxNameLength - 1 <= |r| <= MaxNameLength && r == cleaned[..|r|]
    ensures Allowed(r) && SingleSpaced(r)
    ensures !IsWhitespace(r[|r| - 1])
  {
    CutPrefix(cleaned, MaxNameLength);
    SliceKeeps(cleaned, 0, MaxNameLength);
    TrimKeeping(cleaned[..MaxNameLength], IsWhitespace)
  }

  /**
   * `sanitize_folder_name`: drop forbidden characters, collapse every
   * whitespace run to one space, trim dots and whitespace from both
   * ends, use "Mod" when nothing is left, and cut a longer name to 200
   * characters, trimming whitespace again.
   */
  function SanitizeFolderName(name: string): string
  {
    var cleaned := Cleaned(name);
    if |cleaned| == 0 then FallbackName
    else if |cleaned| > MaxNameLength then Cut(cleaned)
    else cleaned
  }

  /**
   * A sanitised name is never empty and at most 200 long, holds no
   * forbidden character, no whitespace but single spaces and none at
   * its ends, and does not start with a dot.
   */
  lemma SanitizeShape(name: string)
    ensures 0 < |SanitizeFolderName(name)| <= MaxNameLength
    ensures Allowed(SanitizeFolderName(name)) && SingleSpaced(SanitizeFolderName(name))
    ensures !DotOrWhitespace(SanitizeFolderName(name)[0])
    ensures !IsWhitespace(SanitizeFolderName(name)[|SanitizeFolderName(name)| - 1])
  {
    var cleaned := Cleaned(name);
    var r := SanitizeFolderName(name);
    if |cleaned| == 0 {
      FallbackNameShape();
    } else if |cleaned| > MaxNameLength {
      assert r == Cut(cleaned);
      assert r[0] == cleaned[0];
    } else {
      assert r == cleaned;
      assert !DotOrWhitespace(r[|r| - 1]);
    }
  }

  /**
   * The sanitised name is "Mod" when nothing survives cleaning, the
   * cleaned text itself (ending in neither a dot nor whitespace) when
   * it fits, and otherwise its first 199 or 200 characters.
   */
  lemma SanitizeKeepsText(name: string)
    ensures Cleaned(name) == "" <==> SanitizeFolderName(name) == FallbackName && Cleaned(name) != FallbackName
    ensures 0 < |Cleaned(name)| <= MaxNameLength ==>
              SanitizeFolderName(name) == Cleaned(name) && !DotOrWhitespace(Cleaned(name)[|Cleaned(name)| - 1])
    ensures |Cleaned(name)| > MaxNameLength ==>
              MaxNameLength - 1 <= |SanitizeFolderName(name)|
              && SanitizeFolderName(name) == Cleaned(name)[..|SanitizeFolderName(name)|]
  {
    var cleaned := Cleaned(name);
    var r := SanitizeFolderName(name);
    if |cleaned| == 0 {
      assert r == FallbackName;
    } else if |cleaned| <= MaxNameLength {
      assert r == cleaned;
    } else {
      assert r == Cut(cleaned);
      assert |r| >= MaxNameLength - 1 > |FallbackName|;
    }
  }

  /** A text that starts with a word splits into that word and the words after it. */
  lemma WordsStart(s: string)
    requires |s| > 0 && !IsWhitespace(s[0])
    ensures |TakeWord(s)| > 0
    ensures Words(s) == [TakeWord(s)] + Words(s[|TakeWord(s)|..])
  {
    assert TrimStartBy(s, IsWhitespace) == s;
  }

  /** One space in front of a word does not change the split. */
  lemma WordsSkipSpace(s: string, k: nat)
    requires k + 1 < |s| && IsWhitespace(s[k]) && !IsWhitespace(s[k + 1])
    ensures Words(s[k..]) == Words(s[k + 1..])
  {
    var rest := s[k + 1..];
    assert s[k..][1..] == rest;
    assert TrimStartBy(rest, IsWhitespace) == rest;
    assert TrimStartBy(s[k..], IsWhitespace) == rest;
  }

  /** Joining a word in front of at least one more. */
  lemma JoinFront(w: string, ws: seq<string>)
    requires |ws| > 0
    ensures JoinWith([w] + ws, " ") == w + " " + JoinWith(ws, " ")
  {
    assert ([w] + ws)[1..] == ws;
  }

  /** In a single-spaced text that ends in a word, whitespace is one space followed by a word. */
  lemma SpaceThenWord(s: string, k: nat)
    requires SingleSpaced(s) && k < |s| && IsWhitespace(s[k]) && !IsWhitespace(s[|s| - 1])
    ensures s[k] == ' ' && k + 1 < |s| && !IsWhitespace(s[k + 1])
    ensures SingleSpaced(s[k + 1..])
  {
    SliceKeeps(s, k + 1, |s|);
  }

  /** Re-joining the first word with the re-joined rest. */
  lemma JoinStep(s: string, w: string, ws: seq<string>)
    requires |w| < |s| && w == s[..|w|] && s[|w|] == ' '
    requires |ws| > 0 && JoinWith(ws, " ") == s[|w| + 1..]
    ensures JoinWith([w] + ws, " ") == s
  {
    var rest := s[|w| + 1..];
    assert JoinWith([w] + ws, " ") == w + " " + rest by { JoinFront(w, ws); }
    assert s == w + " " + rest by {
      assert " " == [s[|w|]];
      assert s == s[..|w|] + [s[|w|]] + rest;
    }
  }

  /** Splitting a single-spaced, trimmed text into words and joining them with spaces gives it back. */
  lemma {:induction false} CollapseFixed(s: string)
    requires |s| > 0 && SingleSpaced(s) && !IsWhitespace(s[0]) && !IsWhitespace(s[|s| - 1])
    ensures JoinWith(Words(s), " ") == s
    decreases |s|
  {
    WordsStart(s);
    var w := TakeWord(s);
    var k := |w|;
    if k == |s| {
      assert s[k..] == [];
    } else {
      SpaceThenWord(s, k);
      var rest := s[k + 1..];
      WordsSkipSpace(s, k);
      CollapseFixed(rest);
      WordsStart(rest);
      JoinStep(s, w, Words(rest));
    }
  }

  /** A name that is already clean passes every cleaning stage unchanged. */
  lemma CleanedFixed(s: string)
    requires |s| > 0 && Allowed(s) && SingleSpaced(s) && !DotOrWhitespace(s[0]) && !DotOrWhitespace(s[|s| - 1])
    ensures Cleaned(s) == s
  {
    CollapseFixed(s);
    assert Collapse(s) == s;
    assert TrimStartBy(s, IsWhitespace) == s;
    assert TrimEndBy(s, IsWhitespace) == s;
    assert TrimStartBy(s, DotOrWhitespace) == s;
    assert TrimEndBy(s, DotOrWhitespace) == s;
  }

  /** A clean name that fits is its own sanitised form. */
  lemma SanitizeKeepsClean(r: string)
    requires |r| > 0 && Allowed(r) && SingleSpaced(r) && !DotOrWhitespace(r[0]) && !DotOrWhitespace(r[|r| - 1])
    requires |r| <= MaxNameLength
    ensures SanitizeFolderName(r) == r
  {
    CleanedFixed(r);
  }

  /**
   * Sanitising a name whose cleaned form fits is idempotent: the result
   * sanitises to itself.
   */
  lemma SanitizeIdempotent(name: string)
    requires |Cleaned(name)| <= MaxNameLength
    ensures SanitizeFolderName(SanitizeFolderName(name)) == SanitizeFolderName(name)
  {
    if Cleaned(name) == "" {
      FallbackNameShape();
      SanitizeKeepsClean(FallbackName);
    } else {
      SanitizeKeepsClean(Cleaned(name));
    }
  }

  /** A text that starts and ends with a kept character is not trimmed. */
  lemma TrimNothing(s: string, drop: char -> bool)
    requires |s| > 0 && !drop(s[0]) && !drop(s[|s| - 1])
    ensures TrimBy(s, drop) == s
  {
  }

  /** Letters with one dot: nothing forbidden and no whitespace. */
  lemma DottedClean(s: string, dot: nat)
    requires dot < |s| && s[dot] == '.'
    requires forall i :: 0 <= i < |s| && i != dot ==> s[i] == 'a' || s[i] == 'b'
    ensures Allowed(s) && SingleSpaced(s)
  {
  }

  /** The shape of 199 letters, a dot and a letter, and of its first 200 characters. */
  lemma DottedName(a: string)
    requires |a| == MaxNameLength - 1 && forall i :: 0 <= i < |a| ==> a[i] == 'a'
    ensures var name := a + ".b";
            && |name| > MaxNameLength && name[..MaxNameLength] == a + "."
            && name[0] == 'a' && name[|name| - 1] == 'b' && Allowed(name) && SingleSpaced(name)
            && (a + ".")[0] == 'a' && (a + ".")[MaxNameLength - 1] == '.' && name[MaxNameLength - 1] == '.'
  {
    var name := a + ".b";
    assert name[..MaxNameLength] == a + ".";
    DottedClean(name, MaxNameLength - 1);
  }

  /** A cut whose 200th character is not whitespace keeps all 200. */
  lemma CutWhole(s: string)
    requires |s| > MaxNameLength && Allowed(s) && SingleSpaced(s) && !DotOrWhitespace(s[0])
    requires !IsWhitespace(s[MaxNameLength - 1])
    ensures Cut(s) == s[..MaxNameLength]
  {
    TrimNothing(s[..MaxNameLength], IsWhitespace);
  }

  /** A clean name over 200 characters whose 200th is not whitespace sanitises to its first 200. */
  lemma SanitizeCleanLong(s: string)
    requires |s| > MaxNameLength && Allowed(s) && SingleSpaced(s)
    requires !DotOrWhitespace(s[0]) && !DotOrWhitespace(s[|s| - 1]) && !IsWhitespace(s[MaxNameLength - 1])
    ensures SanitizeFolderName(s) == s[..MaxNameLength]
  {
    CleanedFixed(s);
    CutWhole(s);
  }

  /** 199 letters, a dot and a letter are cut to end in the dot. */
  lemma CutEndsInDot(a: string)
    requires |a| == MaxNameLength - 1 && forall i :: 0 <= i < |a| ==> a[i] == 'a'
    ensures SanitizeFolderName(a + ".b") == a + "."
  {
    DottedName(a);
    SanitizeCleanLong(a + ".b");
  }

  /** 199 letters and a dot sanitise to the letters. */
  lemma DotTrimmed(a: string)
    requires |a| == MaxNameLength - 1 && forall i :: 0 <= i < |a| ==> a[i] == 'a'
    ensures SanitizeFolderName(a + ".") == a
  {
    var cut := a + ".";
    assert cut[0] == 'a' && cut[|cut| - 1] == '.' && cut[..|cut| - 1] == a;
    DottedClean(cut, MaxNameLength - 1);
    CollapseFixed(cut);
    TrimNothing(cut, IsWhitespace);
    assert TrimStartBy(cut, DotOrWhitespace) == cut;
    assert TrimEndBy(a, DotOrWhitespace) == a;
    assert TrimEndBy(cut, DotOrWhitespace) == a;
  }

  /**
   * Past the cut, sanitising is not idempotent: 199 letters, a dot and a
   * letter are cut to end in the dot, and a second pass trims it.
   */
  lemma SanitizeCutNotIdempotent(a: string)
    requires |a| == MaxNameLength - 1 && forall i :: 0 <= i < |a| ==> a[i] == 'a'
    ensures SanitizeFolderName(a + ".b") == a + "."
    ensures SanitizeFolderName(SanitizeFolderName(a + ".b")) == a
  {
    CutEndsInDot(a);
    DotTrimmed(a);
  }

  // ---------------------------------------------------------------
  // Naming the destination folder.

  /**
   * `find_existing_mod_folder`: list `mods_path` (an error when it is
   * not a directory) and return the first sub-directory, in the
   * unspecified listing order, whose `PublishedFileId.txt` names
   * `modId`.
   */
  method FindExistingModFolder(t: Tree, modsPath: Path, modId: string) returns (r: Result<Option<Path>, string>)
    ensures r.Err? <==> !IsDir(t, modsPath)
    ensures r.Ok? && r.value.Some? ==>
              |r.value.value| == |modsPath| + 1 && IsPrefix(modsPath, r.value.value) && HoldsMod(t, r.value.value, modId)
    ensures r.Ok? && r.value.None? ==> forall n :: n in ChildNames(t, modsPath) ==> !HoldsMod(t, modsPath + [n], modId)
  {
    if !IsDir(t, modsPath) {
      return Err("Failed to read mods directory");
    }
    var names := ChildNames(t, modsPath);
    while names != {}
      invariant names <= ChildNames(t, modsPath)
      invariant forall n :: n in ChildNames(t, modsPath) && n !in names ==> !HoldsMod(t, modsPath + [n], modId)
      decreases names
    {
      var n :| n in names;
      if HoldsMod(t, modsPath + [n], modId) {
        return Ok(Some(modsPath + [n]));
      }
      names := names - {n};
    }
    return Ok(None);
  }

  /** Some sub-directory of `modsPath` holds `modId`. */
  ghost predicate HasModFolder(t: Tree, modsPath: Path, modId: string)
  {
    exists n :: n in ChildNames(t, modsPath) && HoldsMod(t, modsPath + [n], modId)
  }

  /**
   * The name derived from the title (or, without one, the ID). When a
   * directory of that name already holds a different mod, " (<id>)" is
   * appended.
   */
  function DerivedName(t: Tree, modsPath: Path, modId: string, modTitle: Option<string>): string
  {
    var base := SanitizeFolderName(if modTitle.Some? then modTitle.value else modId);
    var proposed := modsPath + [base];
    if IsDir(t, proposed) && QueryModId(t, proposed).Some? && QueryModId(t, proposed).value != modId
    then base + " (" + modId + ")"
    else base
  }

  /**
   * The derived name is the sanitised title unless a directory of that
   * name holds another mod; then it is that name with the ID in
   * parentheses.
   */
  lemma DerivedNameChoice(t: Tree, modsPath: Path, modId: string, modTitle: Option<string>)
    ensures var base := SanitizeFolderName(if modTitle.Some? then modTitle.value else modId);
            var other := QueryModId(t, modsPath + [base]);
            && (DerivedName(t, modsPath, modId, modTitle) == base
                <==> !(IsDir(t, modsPath + [base]) && other.Some? && other.value != modId))
            && (DerivedName(t, modsPath, modId, modTitle) != base ==>
                DerivedName(t, modsPath, modId, modTitle) == base + " (" + modId + ")")
  {
  }

  /**
   * Which names `update_mod` may pick: the caller's name if given;
   * otherwise a sub-directory that already holds the mod (any one, the
   * listing order being unspecified); otherwise the derived name.
   */
  ghost predicate BackendNameChoice(t: Tree, modsPath: Path, modId: string, existingFolderName: Option<string>,
                                    modTitle: Option<string>, name: string)
  {
    if existingFolderName.Some? then name == existingFolderName.value
    else if HasModFolder(t, modsPath, modId) then HoldsMod(t, modsPath + [name], modId)
    else name == DerivedName(t, modsPath, modId, modTitle)
  }

  /** The folder-name step of `update_mod`: an error only when the mods folder has to be listed and cannot be. */
  method ResolveFolderName(t: Tree, modsPath: Path, modId: string, existingFolderName: Option<string>,
                           modTitle: Option<string>) returns (r: Result<string, string>)
    ensures r.Err? <==> existingFolderName.None? && !IsDir(t, modsPath)
    ensures r.Ok? ==> BackendNameChoice(t, modsPath, modId, existingFolderName, modTitle, r.value)
  {
    if existingFolderName.Some? {
      return Ok(existingFolderName.value);
    }
    var found := FindExistingModFolder(t, modsPath, modId);
    if found.Err? {
      return Err("Failed to find existing mod folder: " + found.error);
    }
    if found.value.Some? {
      var folder := found.value.value;
      var name := folder[|modsPath|];
      ChildOf(modsPath, folder);
      return Ok(name);
    }
    assert !HasModFolder(t, modsPath, modId);
    var derived := DerivedName(t, modsPath, modId, modTitle);
    return Ok(derived);
  }

  // ---------------------------------------------------------------
  // The backup / remove / copy sequence.

  /** The tree after some steps, and the error that stopped them, if any. */
  datatype Step = Step(tree: Tree, err: Option<string>)

  /** Where the backup goes: only when a backup is requested and a backup directory is given. */
  function BackupTarget(createBackup: bool, backupDirectory: Option<Path>): Option<Path>
  {
    if createBackup then backupDirectory else None
  }

  /**
   * The backup step: create the backup directory, remove a stale
   * backup of the same name, then copy the current destination (when
   * there is one) into it.
   */
  function BackupSpec(t: Tree, dest: Path, backup: Option<Path>, name: string): Step
  {
    if backup.None? then Step(t, None)
    else if !CanCreateDirAll(t, backup.value) then Step(t, Some("Failed to create backup directory"))
    else
      var t1 := CreateDirAllSpec(t, backup.value);
      var old_ := backup.value + [name];
      if old_ in t1 && !IsDir(t1, old_) then Step(t1, Some("Failed to remove old backup"))
      else
        var t2 := if old_ in t1 then RemoveTreeSpec(t1, old_) else t1;
        if dest !in t2 then Step(t2, None)
        else if !CopyOk(t2, dest, old_) then Step(CopySpec(t2, dest, old_), Some("Failed to create backup"))
        else Step(CopySpec(t2, dest, old_), None)
  }

  /** The folder the mod is copied from: `modPath` if it is a directory, else `downloadPath/<id>`. */
  function SourceOf(t: Tree, modPath: Path, downloadPath: Path, modId: string): Path
  {
    if IsDir(t, modPath) then modPath else downloadPath + [modId]
  }

  /** The outcome of `update_mod` once the folder name is fixed: the tree and the result. */
  datatype Install = Install(tree: Tree, result: Result<Path, string>)

  /** The error `update_mod` reports when neither source folder exists. */
  const SourceMissing := "Source mod folder not found"

  /**
   * The steps before the copy: create the mods folder, back up, and
   * remove the current destination.
   */
  function PrepareSpec(t: Tree, name: string, modsPath: Path, backup: Option<Path>): Step
  {
    var dest := modsPath + [name];
    if !CanCreateDirAll(t, modsPath) then Step(t, Some("Failed to create mods directory"))
    else
      var b := BackupSpec(CreateDirAllSpec(t, modsPath), dest, backup, name);
      if b.err.Some? then b
      else if dest in b.tree && !IsDir(b.tree, dest) then Step(b.tree, Some("Failed to remove existing mod folder"))
      else Step(if dest in b.tree then RemoveTreeSpec(b.tree, dest) else b.tree, None)
  }

  /**
   * `update_mod` after naming: prepare, then copy the source into the
   * destination. Each failing step ends the sequence with the tree as
   * that step left it.
   */
  function InstallSpec(t: Tree, name: string, modId: string, modPath: Path, downloadPath: Path, modsPath: Path,
                       backup: Option<Path>): Install
  {
    var dest := modsPath + [name];
    var p := PrepareSpec(t, name, modsPath, backup);
    if p.err.Some? then Install(p.tree, Err(p.err.value))
    else
      var source := SourceOf(p.tree, modPath, downloadPath, modId);
      if !IsDir(p.tree, source) then Install(p.tree, Err(SourceMissing))
      else if !CopyOk(p.tree, source, dest) then Install(CopySpec(p.tree, source, dest), Err("Failed to copy mod"))
      else Install(CopySpec(p.tree, source, dest), Ok(dest))
  }

  /** What `update_mod` needs so that no copy goes into its own source. */
  predicate SeparateAreas(modPath: Path, downloadPath: Path, modsPath: Path, backup: Option<Path>)
  {
    && Separate(modsPath, modPath) && Separate(modsPath, downloadPath)
    && (backup.Some? ==> Separate(modsPath, backup.value))
  }

  /** The backup step on the file system object. */
  method Backup(fs: Fs, dest: Path, backup: Option<Path>, name: string) returns (err: Option<string>)
    requires fs.Valid() && dest != [] && (backup.Some? ==> Separate(dest, backup.value + [name]))
    modifies fs
    ensures fs.Valid()
    ensures Step(fs.tree, err) == BackupSpec(old(fs.tree), dest, backup, name)
  {
    if backup.None? {
      return None;
    }
    var ok := fs.CreateDirAll(backup.value);
    if !ok {
      return Some("Failed to create backup directory");
    }
    var backupPath := backup.value + [name];
    if backupPath in fs.tree {
      ok := fs.RemoveDirAll(backupPath);
      if !ok {
        return Some("Failed to remove old backup");
      }
    }
    if dest in fs.tree {
      ok := fs.CopyDirAll(dest, backupPath);
      if !ok {
        return Some("Failed to create backup");
      }
    }
    return None;
  }

  /** The preparation steps on the file system object. */
  method Prepare(fs: Fs, name: string, modsPath: Path, backup: Option<Path>) returns (err: Option<string>)
    requires fs.Valid() && (backup.Some? ==> Separate(modsPath, backup.value))
    modifies fs
    ensures fs.Valid()
    ensures Step(fs.tree, err) == PrepareSpec(old(fs.tree), name, modsPath, backup)
  {
    var dest := modsPath + [name];
    var ok := fs.CreateDirAll(modsPath);
    if !ok {
      return Some("Failed to create mods directory");
    }
    if backup.Some? {
      SeparateChildren(modsPath, backup.value, name, name);
    }
    err := Backup(fs, dest, backup, name);
    if err.Some? {
      return;
    }
    if dest in fs.tree {
      ok := fs.RemoveDirAll(dest);
      if !ok {
        return Some("Failed to remove existing mod folder");
      }
    }
  }

  /**
   * The steps of `update_mod` once the name is fixed, run on the file
   * system object.
   */
  method InstallAs(fs: Fs, name: string, modId: string, modPath: Path, downloadPath: Path, modsPath: Path,
                   backup: Option<Path>) returns (r: Result<Path, string>)
    requires fs.Valid() && SeparateAreas(modPath, downloadPath, modsPath, backup)
    modifies fs
    ensures fs.Valid()
    ensures Install(fs.tree, r) == InstallSpec(old(fs.tree), name, modId, modPath, downloadPath, modsPath, backup)
  {
    var dest := modsPath + [name];
    ghost var t0 := fs.tree;
    var err := Prepare(fs, name, modsPath, backup);
    if err.Some? {
      return Err(err.value);
    }
    PrepareClears(t0, name, modsPath, backup);
    var source := if IsDir(fs.tree, modPath) then modPath else downloadPath + [modId];
    if !IsDir(fs.tree, source) {
      return Err(SourceMissing);
    }
    if IsDir(fs.tree, modPath) {
      SeparateChild(modsPath, modPath, name);
    } else {
      SeparateChildren(modsPath, downloadPath, name, modId);
    }
    var ok := fs.CopyDirAll(source, dest);
    if !ok {
      return Err("Failed to copy mod");
    }
    return Ok(dest);
  }

  /**
   * `update_mod`: fix the folder name, then create, back up, remove and
   * copy. `name` is the folder name it settled on.
   */
  method UpdateMod(fs: Fs, modId: string, modPath: Path, downloadPath: Path, modsPath: Path,
                   existingFolderName: Option<string>, createBackup: bool, backupDirectory: Option<Path>,
                   modTitle: Option<string>) returns (r: Result<Path, string>, name: string)
    requires fs.Valid() && SeparateAreas(modPath, downloadPath, modsPath, BackupTarget(createBackup, backupDirectory))
    modifies fs
    ensures fs.Valid()
    ensures existingFolderName.None? && !IsDir(old(fs.tree), modsPath) ==> r.Err? && fs.tree == old(fs.tree)
    ensures existingFolderName.Some? || IsDir(old(fs.tree), modsPath) ==>
              && BackendNameChoice(old(fs.tree), modsPath, modId, existingFolderName, modTitle, name)
              && Install(fs.tree, r) == InstallSpec(old(fs.tree), name, modId, modPath, downloadPath, modsPath,
                                                    BackupTarget(createBackup, backupDirectory))
  {
    var folder := ResolveFolderName(fs.tree, modsPath, modId, existingFolderName, modTitle);
    if folder.Err? {
      return Err(folder.error), "";
    }
    name := folder.value;
    r := InstallAs(fs, name, modId, modPath, downloadPath, modsPath, BackupTarget(createBackup, backupDirectory));
  }

  // ---------------------------------------------------------------
  // What the install sequence does to the tree.

  /** The backup step only touches the backup directory's ancestors and the backup folder. */
  lemma BackupKeeps(t: Tree, dest: Path, backup: Option<Path>, name: string, s: Path)
    requires backup.Some? ==> !IsPrefix(s, backup.value) && Separate(s, backup.value + [name])
    ensures SameBelow(t, BackupSpec(t, dest, backup, name).tree, s)
  {
    if backup.Some? && CanCreateDirAll(t, backup.value) {
      var bp := backup.value + [name];
      var t1 := CreateDirAllSpec(t, backup.value);
      CreateChangesAbove(t, backup.value);
      AboveKeepsOthers(t, t1, backup.value, s);
      var t2 := if bp in t1 then RemoveTreeSpec(t1, bp) else t1;
      RemoveChangesAround(t1, bp);
      AroundKeepsSeparate(t1, t2, bp, s);
      SameBelowTransitive(t, t1, t2, s);
      CopyChangesAround(t2, dest, bp);
      AroundKeepsSeparate(t2, CopySpec(t2, dest, bp), bp, s);
      SameBelowTransitive(t, t2, CopySpec(t2, dest, bp), s);
    }
  }

  /** The backup step keeps the tree well formed. */
  lemma BackupWellFormed(t: Tree, dest: Path, backup: Option<Path>, name: string)
    requires WellFormed(t) && (backup.Some? ==> Separate(dest, backup.value + [name]))
    ensures WellFormed(BackupSpec(t, dest, backup, name).tree)
  {
    if backup.Some? && CanCreateDirAll(t, backup.value) {
      var bp := backup.value + [name];
      CreateDirAllProperties(t, backup.value);
      var t1 := CreateDirAllSpec(t, backup.value);
      if bp in t1 {
        RemoveTreeWellFormed(t1, bp);
        assert IsPrefix(bp, bp);
      }
      var t2 := if bp in t1 then RemoveTreeSpec(t1, bp) else t1;
      if CopyOk(t2, dest, bp) {
        CopyWellFormed(t2, dest, bp);
      } else if CanCreateDirAll(t2, bp) {
        CreateDirAllProperties(t2, bp);
      }
    }
  }

  /**
   * Preparation leaves nothing changed outside the mods folder's
   * ancestors, the destination, and (with a backup) the backup
   * directory's ancestors and the backup folder.
   */
  lemma PrepareKeeps(t: Tree, name: string, modsPath: Path, backup: Option<Path>, s: Path)
    requires !IsPrefix(s, modsPath) && Separate(s, modsPath + [name])
    requires backup.Some? ==> !IsPrefix(s, backup.value) && Separate(s, backup.value + [name])
    ensures SameBelow(t, PrepareSpec(t, name, modsPath, backup).tree, s)
  {
    var dest := modsPath + [name];
    if CanCreateDirAll(t, modsPath) {
      var t1 := CreateDirAllSpec(t, modsPath);
      CreateChangesAbove(t, modsPath);
      AboveKeepsOthers(t, t1, modsPath, s);
      var b := BackupSpec(t1, dest, backup, name);
      BackupKeeps(t1, dest, backup, name, s);
      SameBelowTransitive(t, t1, b.tree, s);
      if dest in b.tree {
        RemoveChangesAround(b.tree, dest);
        AroundKeepsSeparate(b.tree, RemoveTreeSpec(b.tree, dest), dest, s);
        SameBelowTransitive(t, b.tree, RemoveTreeSpec(b.tree, dest), s);
      }
    }
  }

  /** A preparation that succeeds leaves a well-formed tree with the mods folder present and the destination gone. */
  lemma PrepareClears(t: Tree, name: string, modsPath: Path, backup: Option<Path>)
    requires WellFormed(t) && (backup.Some? ==> Separate(modsPath, backup.value))
    ensures var p := PrepareSpec(t, name, modsPath, backup);
            && WellFormed(p.tree)
            && (p.err.None? ==> IsDir(p.tree, modsPath) && modsPath + [name] !in p.tree)
  {
    var dest := modsPath + [name];
    if CanCreateDirAll(t, modsPath) {
      CreateDirAllProperties(t, modsPath);
      var t1 := CreateDirAllSpec(t, modsPath);
      if backup.Some? {
        SeparateChildren(modsPath, backup.value, name, name);
        SeparateChild(backup.value, modsPath, name);
      }
      BackupWellFormed(t1, dest, backup, name);
      BackupKeeps(t1, dest, backup, name, modsPath);
      assert IsPrefix(modsPath, modsPath);
      var b := BackupSpec(t1, dest, backup, name);
      if dest in b.tree {
        RemoveTreeWellFormed(b.tree, dest);
        assert IsPrefix(dest, dest);
      }
    }
  }

  /**
   * `update_mod` changes nothing outside the mods folder's ancestors,
   * the destination, and (with a backup) the backup directory's
   * ancestors and the backup folder.
   */
  lemma InstallKeeps(t: Tree, name: string, modId: string, modPath: Path, downloadPath: Path, modsPath: Path,
                     backup: Option<Path>, s: Path)
    requires !IsPrefix(s, modsPath) && Separate(s, modsPath + [name])
    requires backup.Some? ==> !IsPrefix(s, backup.value) && Separate(s, backup.value + [name])
    ensures SameBelow(t, InstallSpec(t, name, modId, modPath, downloadPath, modsPath, backup).tree, s)
  {
    var dest := modsPath + [name];
    var p := PrepareSpec(t, name, modsPath, backup);
    PrepareKeeps(t, name, modsPath, backup, s);
    var source := SourceOf(p.tree, modPath, downloadPath, modId);
    CopyChangesAround(p.tree, source, dest);
    AroundKeepsSeparate(p.tree, CopySpec(p.tree, source, dest), dest, s);
    SameBelowTransitive(t, p.tree, CopySpec(p.tree, source, dest), s);
  }

  /** The source folders lie apart from everything the preparation touches. */
  predicate SourcesApart(modPath: Path, downloadPath: Path, modsPath: Path, backup: Option<Path>)
  {
    && SeparateAreas(modPath, downloadPath, modsPath, backup)
    && (backup.Some? ==> Separate(backup.value, modPath) && Separate(backup.value, downloadPath))
  }

  /** Preparation leaves both candidate source folders as they were. */
  lemma PrepareKeepsSources(t: Tree, name: string, modId: string, modPath: Path, downloadPath: Path, modsPath: Path,
                            backup: Option<Path>)
    requires SourcesApart(modPath, downloadPath, modsPath, backup)
    ensures var p := PrepareSpec(t, name, modsPath, backup);
            && SameBelow(t, p.tree, modPath) && SameBelow(t, p.tree, downloadPath + [modId])
            && (IsDir(p.tree, modPath) <==> IsDir(t, modPath))
            && (IsDir(p.tree, downloadPath + [modId]) <==> IsDir(t, downloadPath + [modId]))
            && SourceOf(p.tree, modPath, downloadPath, modId) == SourceOf(t, modPath, downloadPath, modId)
  {
    var d := downloadPath + [modId];
    SeparateChild(modsPath, modPath, name);
    SeparateChild(downloadPath, modsPath, modId);
    SeparateChildren(modsPath, downloadPath, name, modId);
    if backup.Some? {
      SeparateChild(backup.value, modPath, name);
      SeparateChild(downloadPath, backup.value, modId);
      SeparateChildren(backup.value, downloadPath, name, modId);
    }
    PrepareKeeps(t, name, modsPath, backup, modPath);
    PrepareKeeps(t, name, modsPath, backup, d);
    assert IsPrefix(modPath, modPath);
    assert IsPrefix(d, d);
  }

  /** The final copy: into a fresh child of an existing folder, from a source unchanged since `t`. */
  lemma CopyStage(t: Tree, pt: Tree, source: Path, modsPath: Path, name: string)
    requires WellFormed(pt) && IsDir(pt, modsPath) && modsPath + [name] !in pt
    requires Separate(source, modsPath + [name]) && SameBelow(t, pt, source) && IsDir(pt, source)
    ensures CopyOk(pt, source, modsPath + [name])
    ensures Mirrors(CopySpec(pt, source, modsPath + [name]), modsPath + [name], t, source)
  {
    var dest := modsPath + [name];
    DirPrefixesAreDirs(pt, modsPath);
    CreateChildDir(pt, modsPath, name);
    CopyMirrorsSource(pt, source, dest);
    SameBelowSymmetric(t, pt, source);
    MirrorsKeptAtSrc(CopySpec(pt, source, dest), dest, pt, t, source);
  }

  /**
   * Once preparation succeeds, the install succeeds exactly when the
   * chosen source folder exists (so the copy itself cannot fail), and
   * then the destination holds a copy of that source as it was before
   * the call.
   */
  lemma InstallPlacesSource(t: Tree, name: string, modId: string, modPath: Path, downloadPath: Path, modsPath: Path,
                            backup: Option<Path>)
    requires WellFormed(t) && SourcesApart(modPath, downloadPath, modsPath, backup)
    ensures var i := InstallSpec(t, name, modId, modPath, downloadPath, modsPath, backup);
            var source := SourceOf(t, modPath, downloadPath, modId);
            && (i.result.Ok? <==> PrepareSpec(t, name, modsPath, backup).err.None? && IsDir(t, source))
            && (i.result.Ok? ==> i.result.value == modsPath + [name] && Mirrors(i.tree, modsPath + [name], t, source))
  {
    var p := PrepareSpec(t, name, modsPath, backup);
    PrepareClears(t, name, modsPath, backup);
    PrepareKeepsSources(t, name, modId, modPath, downloadPath, modsPath, backup);
    var source := SourceOf(t, modPath, downloadPath, modId);
    if p.err.None? && IsDir(t, source) {
      if source == modPath {
        SeparateChild(modsPath, modPath, name);
      } else {
        SeparateChildren(modsPath, downloadPath, name, modId);
      }
      CopyStage(t, p.tree, source, modsPath, name);
    }
  }

  /** The preparation errors are all distinct from the missing-source error. */
  lemma PrepareErrorsDiffer(t: Tree, name: string, modsPath: Path, backup: Option<Path>)
    ensures PrepareSpec(t, name, modsPath, backup).err != Some(SourceMissing)
  {
    assert SourceMissing[0] == 'S';
    var e := PrepareSpec(t, name, modsPath, backup).err;
    if e.Some? {
      assert e.value[0] == 'F';
    }
  }

  /**
   * With neither source folder present the install fails, and the
   * "source not found" error means exactly that: the old destination
   * has already been removed by then.
   */
  lemma InstallMissingSource(t: Tree, name: string, modId: string, modPath: Path, downloadPath: Path, modsPath: Path,
                             backup: Option<Path>)
    requires WellFormed(t) && SourcesApart(modPath, downloadPath, modsPath, backup)
    ensures var i := InstallSpec(t, name, modId, modPath, downloadPath, modsPath, backup);
            && (!IsDir(t, modPath) && !IsDir(t, downloadPath + [modId]) ==> i.result.Err?)
            && (i.result == Err(SourceMissing) <==>
                  PrepareSpec(t, name, modsPath, backup).err.None? && !IsDir(t, modPath) && !IsDir(t, downloadPath + [modId]))
            && (i.result == Err(SourceMissing) ==> modsPath + [name] !in i.tree)
  {
    PrepareClears(t, name, modsPath, backup);
    PrepareKeepsSources(t, name, modId, modPath, downloadPath, modsPath, backup);
    PrepareErrorsDiffer(t, name, modsPath, backup);
    InstallPlacesSource(t, name, modId, modPath, downloadPath, modsPath, backup);
  }

  /** The backup target after the stale backup is gone: a fresh child of an existing folder. */
  lemma BackupTargetCleared(t: Tree, dest: Path, backupDir: Path, name: string)
    requires WellFormed(t) && CanCreateDirAll(t, backupDir)
    requires Separate(dest, backupDir + [name]) && !IsPrefix(dest, backupDir)
    ensures var bp := backupDir + [name];
            var c := CreateDirAllSpec(t, backupDir);
            var t2 := if bp in c then RemoveTreeSpec(c, bp) else c;
            && WellFormed(t2) && IsDir(t2, backupDir) && bp !in t2 && SameBelow(t, t2, dest)
  {
    var bp := backupDir + [name];
    CreateDirAllProperties(t, backupDir);
    var c := CreateDirAllSpec(t, backupDir);
    if bp in c {
      RemoveTreeWellFormed(c, bp);
      assert IsPrefix(bp, bp);
      assert !IsPrefix(bp, backupDir);
    }
    var t2 := if bp in c then RemoveTreeSpec(c, bp) else c;
    CreateChangesAbove(t, backupDir);
    AboveKeepsOthers(t, c, backupDir, dest);
    RemoveChangesAround(c, bp);
    AroundKeepsSeparate(c, t2, bp, dest);
    SameBelowTransitive(t, c, t2, dest);
  }

  /** A backup step that succeeds on an existing destination folder leaves a copy of it in the backup folder. */
  lemma BackupMirrors(t: Tree, dest: Path, backup: Option<Path>, name: string)
    requires WellFormed(t) && backup.Some? && IsDir(t, dest)
    requires Separate(dest, backup.value + [name]) && !IsPrefix(dest, backup.value)
    ensures var b := BackupSpec(t, dest, backup, name);
            b.err.None? ==> Mirrors(b.tree, backup.value + [name], t, dest) && SameBelow(t, b.tree, dest)
  {
    var bp := backup.value + [name];
    BackupKeeps(t, dest, backup, name, dest);
    if CanCreateDirAll(t, backup.value) {
      BackupTargetCleared(t, dest, backup.value, name);
      var c := CreateDirAllSpec(t, backup.value);
      var t2 := if bp in c then RemoveTreeSpec(c, bp) else c;
      assert IsPrefix(dest, dest);
      DirPrefixesAreDirs(t2, backup.value);
      CreateChildDir(t2, backup.value, name);
      CopyMirrorsSource(t2, dest, bp);
      SameBelowSymmetric(t, t2, dest);
      MirrorsKeptAtSrc(CopySpec(t2, dest, bp), bp, t2, t, dest);
    }
  }

  /** A successful preparation over an existing destination leaves its copy in the backup folder. */
  lemma PrepareBacksUp(t: Tree, name: string, modsPath: Path, backup: Option<Path>)
    requires WellFormed(t) && backup.Some? && Separate(modsPath, backup.value) && IsDir(t, modsPath + [name])
    ensures var p := PrepareSpec(t, name, modsPath, backup);
            p.err.None? ==> Mirrors(p.tree, backup.value + [name], t, modsPath + [name])
  {
    var dest := modsPath + [name];
    var bp := backup.value + [name];
    if CanCreateDirAll(t, modsPath) {
      SeparateChildren(modsPath, backup.value, name, name);
      SeparateChild(modsPath, backup.value, name);
      CreateDirAllProperties(t, modsPath);
      var t1 := CreateDirAllSpec(t, modsPath);
      CreateChangesAbove(t, modsPath);
      assert !IsPrefix(dest, modsPath);
      AboveKeepsOthers(t, t1, modsPath, dest);
      assert IsPrefix(dest, dest);
      var b := BackupSpec(t1, dest, backup, name);
      BackupMirrors(t1, dest, backup, name);
      if b.err.None? {
        SameBelowSymmetric(t, t1, dest);
        MirrorsKeptAtSrc(b.tree, bp, t1, t, dest);
        RemoveChangesAround(b.tree, dest);
        AroundKeepsSeparate(b.tree, RemoveTreeSpec(b.tree, dest), dest, bp);
        MirrorsKeptAtDst(b.tree, RemoveTreeSpec(b.tree, dest), bp, t, dest);
      }
    }
  }

  /** The copy after preparation only touches the destination. */
  lemma CopyKeepsPrepared(t: Tree, name: string, modId: string, modPath: Path, downloadPath: Path, modsPath: Path,
                          backup: Option<Path>, s: Path)
    requires Separate(s, modsPath + [name])
    ensures SameBelow(PrepareSpec(t, name, modsPath, backup).tree,
                      InstallSpec(t, name, modId, modPath, downloadPath, modsPath, backup).tree, s)
  {
    var p := PrepareSpec(t, name, modsPath, backup);
    var source := SourceOf(p.tree, modPath, downloadPath, modId);
    CopyChangesAround(p.tree, source, modsPath + [name]);
    AroundKeepsSeparate(p.tree, CopySpec(p.tree, source, modsPath + [name]), modsPath + [name], s);
  }

  /**
   * With a backup directory, once the old destination has been removed
   * (the install succeeded or stopped at the missing source) the backup
   * folder holds a copy of the destination as it was before the call.
   */
  lemma InstallBacksUp(t: Tree, name: string, modId: string, modPath: Path, downloadPath: Path, modsPath: Path,
                       backup: Option<Path>)
    requires WellFormed(t) && SeparateAreas(modPath, downloadPath, modsPath, backup) && backup.Some?
    ensures var i := InstallSpec(t, name, modId, modPath, downloadPath, modsPath, backup);
            (i.result.Ok? || i.result == Err(SourceMissing)) && IsDir(t, modsPath + [name]) ==>
              Mirrors(i.tree, backup.value + [name], t, modsPath + [name])
  {
    var i := InstallSpec(t, name, modId, modPath, downloadPath, modsPath, backup);
    var p := PrepareSpec(t, name, modsPath, backup);
    PrepareErrorsDiffer(t, name, modsPath, backup);
    if (i.result.Ok? || i.result == Err(SourceMissing)) && IsDir(t, modsPath + [name]) {
      PrepareBacksUp(t, name, modsPath, backup);
      SeparateChildren(modsPath, backup.value, name, name);
      CopyKeepsPrepared(t, name, modId, modPath, downloadPath, modsPath, backup, backup.value + [name]);
      MirrorsKeptAtDst(p.tree, i.tree, backup.value + [name], t, modsPath + [name]);
    }
  }
}
