/**
 * The class label the evaluation script gives a dataset folder
 * (normalize_class_name and the folder-name line in scripts/test.py): the
 * name with every "_Int" removed, stripped, its whitespace runs collapsed to
 * single spaces, and a leading "O " rewritten.
 *
 * Python's `' '.join(name.split())` is modelled as Join(Words(name)), with
 * Words the whitespace splitting of `str.split()` and IsSpace the characters
 * Python treats as whitespace there.
 *
 * As written, the rewrite turns "O " into "O." and so drops the space the
 * backend's class names keep ("O. exaltata"); NormalizeClassName models that,
 * NormalizeClassNameIntended the "O. " the names call for.
 */
module ClassNames {

  /** The characters `str.split()` and `str.strip()` treat as whitespace. */
  predicate IsSpace(c: char)
  {
    || c == ' ' || '\t' <= c <= '\r' || '\U{1C}' <= c <= '\U{1F}'
    || c == '\U{85}' || c == '\U{A0}' || c == '\U{1680}' || '\U{2000}' <= c <= '\U{200A}'
    || c == '\U{2028}' || c == '\U{2029}' || c == '\U{202F}' || c == '\U{205F}' || c == '\U{3000}'
  }

  predicate NoSpace(s: string)
  {
    forall i :: 0 <= i < |s| ==> !IsSpace(s[i])
  }

  /** A piece `str.split()` can produce: non-empty and without whitespace. */
  predicate IsWord(w: string)
  {
    |w| > 0 && NoSpace(w)
  }

  predicate AllWords(ws: seq<string>)
  {
    forall k :: 0 <= k < |ws| ==> IsWord(ws[k])
  }

  predicate AllSpace(s: string)
  {
    forall i :: 0 <= i < |s| ==> IsSpace(s[i])
  }

  /** s without its leading whitespace: what is left starts with a character that is not whitespace. */
  function DropSpaces(s: string): (r: string)
    ensures |r| <= |s|
    ensures |r| == 0 || !IsSpace(r[0])
  {
    if |s| > 0 && IsSpace(s[0]) then DropSpaces(s[1..]) else s
  }

  /** What DropSpaces removes is whitespace, and what it keeps is the rest of s. */
  lemma {:induction false} DropSpacesSuffix(s: string)
    ensures DropSpaces(s) == s[|s| - |DropSpaces(s)|..]
    ensures AllSpace(s[..|s| - |DropSpaces(s)|])
  {
    if |s| > 0 && IsSpace(s[0]) {
      DropSpacesSuffix(s[1..]);
      var k := |s| - |DropSpaces(s)|;
      assert s[1..][k - 1..] == s[k..];
      assert forall i :: 1 <= i < k ==> s[..k][i] == s[1..][..k - 1][i - 1];
    }
  }

  /** The longest prefix of s without whitespace: it stops at whitespace or at the end. */
  function WordPrefix(s: string): (w: string)
    ensures |w| <= |s| && NoSpace(w)
    ensures |w| == |s| || IsSpace(s[|w|])
  {
    if |s| > 0 && !IsSpace(s[0]) then [s[0]] + WordPrefix(s[1..]) else []
  }

  lemma {:induction false} WordPrefixIsPrefix(s: string)
    ensures WordPrefix(s) == s[..|WordPrefix(s)|]
  {
    if |s| > 0 && !IsSpace(s[0]) {
      WordPrefixIsPrefix(s[1..]);
      assert s[..|WordPrefix(s)|] == [s[0]] + s[1..][..|WordPrefix(s[1..])|];
    }
  }

  /** `s.split()`: the maximal whitespace-free pieces of s, in order. */
  function Words(s: string): (ws: seq<string>)
    ensures AllWords(ws)
    decreases |s|
  {
    var t := DropSpaces(s);
    if |t| == 0 then []
    else
      var w := WordPrefix(t);
      [w] + Words(t[|w|..])
  }

  /**
   * `' '.join(ws)`: starts with the first word, and is empty only when there
   * are no words.
   */
  function Join(ws: seq<string>): (r: string)
    ensures |ws| > 0 ==> ws[0] <= r
    ensures AllWords(ws) ==> (|r| == 0 <==> |ws| == 0)
  {
    if |ws| == 0 then ""
    else if |ws| == 1 then ws[0]
    else ws[0] + " " + Join(ws[1..])
  }

  /**
   * `' '.join(s.split())`: the result is collapsed and has the same words as
   * the input; only the whitespace between and around them changes.
   */
  function Collapse(s: string): (r: string)
    ensures Collapsed(r) && Words(r) == Words(s)
  {
    var ws := Words(s);
    JoinCollapsed(ws);
    WordsOfJoin(ws);
    Join(ws)
  }

  /**
   * No whitespace at either end, and every whitespace character is a single
   * space followed by a character that is not whitespace.
   */
  predicate Collapsed(s: string)
  {
    && (|s| > 0 ==> !IsSpace(s[0]) && !IsSpace(s[|s| - 1]))
    && forall i :: 0 <= i < |s| && IsSpace(s[i]) ==> s[i] == ' ' && i + 1 < |s| && !IsSpace(s[i + 1])
  }

  // ---------------------------------------------------------------------------
  // Splitting and joining
  // ---------------------------------------------------------------------------

  /** Leading whitespace does not change the split. */
  lemma {:induction false} DropSpacesSkip(sp: string, t: string)
    requires AllSpace(sp)
    ensures DropSpaces(sp + t) == DropSpaces(t)
  {
    if |sp| > 0 {
      assert (sp + t)[0] == sp[0] && IsSpace(sp[0]);
      assert (sp + t)[1..] == sp[1..] + t;
      assert AllSpace(sp[1..]) by {
        forall i | 0 <= i < |sp| - 1 ensures IsSpace(sp[1..][i]) {
          assert sp[1..][i] == sp[i + 1];
        }
      }
      DropSpacesSkip(sp[1..], t);
    } else {
      assert sp + t == t;
    }
  }

  lemma WordsSkip(sp: string, t: string)
    requires AllSpace(sp)
    ensures Words(sp + t) == Words(t)
  {
    DropSpacesSkip(sp, t);
  }

  /** A word followed by whitespace, or by nothing, is the word prefix. */
  lemma {:induction false} WordPrefixOf(w: string, t: string)
    requires NoSpace(w) && (|t| == 0 || IsSpace(t[0]))
    ensures WordPrefix(w + t) == w
  {
    if |w| > 0 {
      assert (w + t)[1..] == w[1..] + t;
      WordPrefixOf(w[1..], t);
    } else {
      assert w + t == t;
    }
  }

  /** A word, at least one whitespace character, then t: the word, then the words of t. */
  lemma WordsCons(w: string, sp: string, t: string)
    requires IsWord(w) && |sp| > 0 && AllSpace(sp)
    ensures Words(w + sp + t) == [w] + Words(t)
  {
    var s := w + sp + t;
    assert s == w + (sp + t);
    WordPrefixOf(w, sp + t);
    assert s[|w|..] == sp + t;
    WordsSkip(sp, t);
  }

  /** A single word splits into itself. */
  lemma WordsSingle(w: string)
    requires IsWord(w)
    ensures Words(w) == [w]
  {
    WordPrefixOf(w, "");
    assert w + "" == w;
    assert w[|w|..] == "";
  }

  /** Joining words with single spaces gives a collapsed string. */
  lemma {:induction false} JoinCollapsed(ws: seq<string>)
    requires AllWords(ws)
    ensures Collapsed(Join(ws))
  {
    if |ws| > 1 {
      JoinCollapsed(ws[1..]);
      CollapsedAfterWord(ws[0] + " ", Join(ws[1..]));
    }
  }

  /**
   * A prefix whose only whitespace is single spaces each followed by more of
   * the prefix, put before a collapsed non-empty string, gives a collapsed string.
   */
  lemma CollapsedAfterWord(p: string, rest: string)
    requires |p| > 0 && !IsSpace(p[0]) && Collapsed(rest) && |rest| > 0
    requires forall i :: 0 <= i < |p| && IsSpace(p[i]) ==> p[i] == ' ' && (i + 1 == |p| || !IsSpace(p[i + 1]))
    ensures Collapsed(p + rest)
  {
    var s := p + rest;
    forall i | 0 <= i < |s| && IsSpace(s[i])
      ensures s[i] == ' ' && i + 1 < |s| && !IsSpace(s[i + 1])
    {
      if i >= |p| {
        assert s[i] == rest[i - |p|];
        if i + 1 < |s| {
          assert s[i + 1] == rest[i + 1 - |p|];
        }
      } else if i + 1 == |p| {
        assert s[i + 1] == rest[0];
      } else {
        assert s[i] == p[i] && s[i + 1] == p[i + 1];
      }
    }
    assert s[|s| - 1] == rest[|rest| - 1];
  }

  /** What follows a non-whitespace character of a collapsed string is collapsed. */
  lemma CollapsedSuffix(c: string, k: nat)
    requires Collapsed(c) && k < |c| && !IsSpace(c[k])
    ensures Collapsed(c[k..])
  {
    var r := c[k..];
    forall i | 0 <= i < |r| && IsSpace(r[i])
      ensures r[i] == ' ' && i + 1 < |r| && !IsSpace(r[i + 1])
    {
      assert r[i] == c[k + i];
    }
    assert r[|r| - 1] == c[|c| - 1];
  }

  /** Round trip: splitting words joined with spaces gives the words back. */
  lemma {:induction false} WordsOfJoin(ws: seq<string>)
    requires AllWords(ws)
    ensures Words(Join(ws)) == ws
  {
    if |ws| == 1 {
      WordsSingle(ws[0]);
    } else if |ws| > 1 {
      WordsOfJoin(ws[1..]);
      WordsCons(ws[0], " ", Join(ws[1..]));
      assert ws == [ws[0]] + ws[1..];
    }
  }

  /** A collapsed string is its own collapse. */
  lemma {:induction false} CollapsedFixed(s: string)
    requires Collapsed(s)
    ensures Collapse(s) == s
    decreases |s|
  {
    if |s| > 0 {
      var w := WordPrefix(s);
      WordPrefixIsPrefix(s);
      assert |w| > 0;
      if |w| == |s| {
        assert w == s;
        WordsSingle(s);
      } else {
        var rest := s[|w| + 1..];
        assert s == w + " " + rest;
        assert |rest| > 0 && rest[0] == s[|w| + 1];
        assert Collapsed(rest) by {
          forall i | 0 <= i < |rest| && IsSpace(rest[i])
            ensures rest[i] == ' ' && i + 1 < |rest| && !IsSpace(rest[i + 1])
          {
            assert rest[i] == s[|w| + 1 + i];
          }
          assert rest[|rest| - 1] == s[|s| - 1];
        }
        CollapsedFixed(rest);
        WordsCons(w, " ", rest);
        var ws := Words(rest);
        assert |ws| > 0 by { WordsSingleFirst(rest); }
        assert [w] + ws == [w] + ws[..];
        assert ([w] + ws)[1..] == ws;
      }
    }
  }

  lemma WordsSingleFirst(s: string)
    requires |s| > 0 && !IsSpace(s[0])
    ensures |Words(s)| > 0
  {
  }

  lemma CollapseIdempotent(s: string)
    ensures Collapse(Collapse(s)) == Collapse(s)
  {
    CollapsedFixed(Collapse(s));
  }

  // ---------------------------------------------------------------------------
  // normalize_class_name
  // ---------------------------------------------------------------------------

  predicate StartsWithOSpace(s: string)
  {
    |s| >= 2 && s[..2] == "O "
  }

  /** A collapsed string that starts with "O " goes on with a character that is not whitespace. */
  lemma CollapsedAfterO(c: string)
    requires Collapsed(c) && StartsWithOSpace(c)
    ensures |c| > 2 && !IsSpace(c[2])
  {
    assert c[1] == ' ';
  }

  /**
   * normalize_class_name as written: the collapsed name, with a leading "O "
   * replaced by "O." — the space after the O is dropped, not kept.
   */
  function NormalizeClassName(name: string): (r: string)
    ensures Collapsed(r) && !StartsWithOSpace(r)
    ensures |r| == |Collapse(name)|
  {
    var c := Collapse(name);
    if StartsWithOSpace(c) then
      CollapsedAfterO(c);
      CollapsedSuffix(c, 2);
      CollapsedAfterWord("O.", c[2..]);
      "O." + c[2..]
    else c
  }

  /** The corrected rewrite: a leading "O " becomes "O. ", the form the model's class names use. */
  function NormalizeClassNameIntended(name: string): (r: string)
    ensures Collapsed(r) && !StartsWithOSpace(r)
    ensures |r| == |Collapse(name)| + (if StartsWithOSpace(Collapse(name)) then 1 else 0)
  {
    var c := Collapse(name);
    if StartsWithOSpace(c) then
      CollapsedAfterO(c);
      CollapsedSuffix(c, 2);
      CollapsedAfterWord("O. ", c[2..]);
      var r := "O. " + c[2..];
      assert r[1] == '.';
      r
    else c
  }

  /** A collapsed name not starting with "O " is its own normal form. */
  lemma NormalizeKeepsOtherNames(name: string)
    requires Collapsed(name) && !StartsWithOSpace(name)
    ensures NormalizeClassName(name) == name && NormalizeClassNameIntended(name) == name
  {
    CollapsedFixed(name);
  }

  /** Normalising twice is normalising once. */
  lemma NormalizeIdempotent(name: string)
    ensures NormalizeClassName(NormalizeClassName(name)) == NormalizeClassName(name)
  {
    NormalizeKeepsOtherNames(NormalizeClassName(name));
  }

  lemma NormalizeIntendedIdempotent(name: string)
    ensures NormalizeClassNameIntended(NormalizeClassNameIntended(name)) == NormalizeClassNameIntended(name)
  {
    NormalizeKeepsOtherNames(NormalizeClassNameIntended(name));
  }

  /** The collapse of "O", some whitespace and a collapsed species name. */
  lemma CollapseOFolder(sp: string, species: string)
    requires |sp| > 0 && AllSpace(sp) && |species| > 0 && Collapsed(species)
    ensures Collapse("O" + sp + species) == "O " + species
  {
    WordsCons("O", sp, species);
    CollapsedFixed(species);
    var ws := Words(species);
    assert |ws| > 0 by { WordsSingleFirst(species); }
    assert (["O"] + ws)[1..] == ws;
  }

  /** A folder "O<whitespace><species>" is labelled "O.<species>" as written, "O. <species>" as intended. */
  lemma NormalizeOFolder(sp: string, species: string)
    requires |sp| > 0 && AllSpace(sp) && |species| > 0 && Collapsed(species)
    ensures NormalizeClassName("O" + sp + species) == "O." + species
    ensures NormalizeClassNameIntended("O" + sp + species) == "O. " + species
  {
    CollapseOFolder(sp, species);
    assert ("O " + species)[..2] == "O ";
    assert ("O " + species)[2..] == species;
  }

  // ---------------------------------------------------------------------------
  // The folder label: replace("_Int", ""), strip(), normalize
  // ---------------------------------------------------------------------------

  const IntSuffix: string := "_Int"

  /** pat occurs in s at position i. */
  predicate MatchAt(s: string, pat: string, i: nat)
  {
    i + |pat| <= |s| && s[i..i + |pat|] == pat
  }

  /** pat occurs in s. */
  predicate Occurs(s: string, pat: string)
  {
    exists i: nat :: i <= |s| && MatchAt(s, pat, i)
  }

  /**
   * `s.replace(pat, "")` for a non-empty pattern: occurrences removed left to
   * right without overlap. s is returned whole exactly when pat does not occur.
   */
  function RemoveAll(s: string, pat: string): (r: string)
    requires |pat| > 0
    ensures |r| <= |s|
    ensures !Occurs(s, pat) <==> r == s
    decreases |s|
  {
    if |s| < |pat| then s
    else if s[..|pat|] == pat then
      assert MatchAt(s, pat, 0);
      RemoveAll(s[|pat|..], pat)
    else
      var rest := RemoveAll(s[1..], pat);
      OccursTail(s, pat);
      [s[0]] + rest
  }

  /** When s does not start with pat, pat occurs in s exactly when it occurs in s[1..]. */
  lemma OccursTail(s: string, pat: string)
    requires |pat| > 0 && |s| >= |pat| && s[..|pat|] != pat
    ensures Occurs(s, pat) <==> Occurs(s[1..], pat)
  {
    if Occurs(s, pat) {
      var i: nat :| i <= |s| && MatchAt(s, pat, i);
      assert i + |pat| <= |s|;
      assert i != 0 by { assert s[0..|pat|] == s[..|pat|]; }
      assert s[1..][i - 1..i - 1 + |pat|] == s[i..i + |pat|];
      assert MatchAt(s[1..], pat, i - 1);
    }
    if Occurs(s[1..], pat) {
      var i: nat :| i <= |s[1..]| && MatchAt(s[1..], pat, i);
      assert i + |pat| <= |s[1..]|;
      assert s[i + 1..i + 1 + |pat|] == s[1..][i..i + |pat|];
      assert MatchAt(s, pat, i + 1);
    }
  }

  /** A trailing "_Int" is removed and nothing before it changes, when none occurs before it. */
  lemma {:induction false} RemoveIntSuffix(x: string)
    requires !Occurs(x, IntSuffix)
    ensures RemoveAll(x + IntSuffix, IntSuffix) == x
    decreases |x|
  {
    var s := x + IntSuffix;
    if |x| == 0 {
      assert s == IntSuffix;
      assert s[..4] == IntSuffix && s[4..] == "";
    } else {
      assert s[..4] != IntSuffix by {
        if |x| >= 4 {
          assert s[..4] == x[0..4];
          assert !MatchAt(x, IntSuffix, 0);
        } else {
          assert s[..4][|x|] == s[|x|] == '_';
          assert IntSuffix[|x|] != '_';
        }
      }
      assert s[1..] == x[1..] + IntSuffix;
      assert !Occurs(x[1..], IntSuffix) by {
        if Occurs(x[1..], IntSuffix) {
          var i: nat :| i <= |x[1..]| && MatchAt(x[1..], IntSuffix, i);
          assert i + 4 <= |x[1..]|;
          assert x[i + 1..i + 5] == x[1..][i..i + 4];
          assert MatchAt(x, IntSuffix, i + 1);
        }
      }
      RemoveIntSuffix(x[1..]);
    }
  }

  /** s without trailing whitespace. */
  function DropSpacesEnd(s: string): (r: string)
    ensures |r| <= |s| && r == s[..|r|]
    ensures |r| == 0 || !IsSpace(r[|r| - 1])
    ensures AllSpace(s[|r|..])
  {
    if |s| > 0 && IsSpace(s[|s| - 1]) then
      var r := DropSpacesEnd(s[..|s| - 1]);
      assert s[..|s| - 1][..|r|] == s[..|r|];
      assert forall i :: 0 <= i < |s| - 1 - |r| ==> s[|r|..][i] == s[..|s| - 1][|r|..][i];
      r
    else s
  }

  /** `s.strip()`: the middle of s, between leading and trailing whitespace. */
  function Strip(s: string): (r: string)
    ensures |r| == 0 || (!IsSpace(r[0]) && !IsSpace(r[|r| - 1]))
    ensures exists i :: (0 <= i <= |s| - |r| && r == s[i..i + |r|]
                         && AllSpace(s[..i]) && AllSpace(s[i + |r|..]))
  {
    var t := DropSpaces(s);
    DropSpacesSuffix(s);
    var r := DropSpacesEnd(t);
    var i := |s| - |t|;
    assert r == s[i..i + |r|];
    assert s[i + |r|..] == t[|r|..];
    r
  }

  /** A string with no whitespace at either end is its own strip. */
  lemma StripNothing(s: string)
    requires |s| == 0 || (!IsSpace(s[0]) && !IsSpace(s[|s| - 1]))
    ensures Strip(s) == s
  {
  }

  /** The label of a class folder (lines 108-109): "_Int" removed, stripped, normalised as written. */
  function FolderClassLabel(folder: string): (r: string)
    ensures Collapsed(r) && !StartsWithOSpace(r)
  {
    NormalizeClassName(Strip(RemoveAll(folder, IntSuffix)))
  }

  /** The same label with the corrected rewrite. */
  function FolderClassLabelIntended(folder: string): (r: string)
    ensures Collapsed(r) && !StartsWithOSpace(r)
  {
    NormalizeClassNameIntended(Strip(RemoveAll(folder, IntSuffix)))
  }

  /** "O", whitespace and a species: no "_Int" in it when there is none in the species. */
  lemma NoIntInFolder(sp: string, species: string)
    requires AllSpace(sp) && !Occurs(species, IntSuffix)
    ensures !Occurs("O" + sp + species, IntSuffix)
  {
    var s := "O" + sp + species;
    var k := 1 + |sp|;
    forall i: nat | i <= |s|
      ensures !MatchAt(s, IntSuffix, i)
    {
      if i + 4 <= |s| {
        if i < k {
          assert s[i..i + 4][0] == s[i] == (if i == 0 then 'O' else sp[i - 1]);
        } else {
          assert species[i - k..i - k + 4] == s[i..i + 4];
          assert !MatchAt(species, IntSuffix, i - k);
        }
      }
    }
  }

  /**
   * A folder "O<whitespace><species>", with or without a trailing "_Int", is
   * labelled "O.<species>" as written and "O. <species>" as intended.
   */
  lemma FolderLabelOfSpecies(sp: string, species: string, tagged: bool)
    requires |sp| > 0 && AllSpace(sp) && |species| > 0 && Collapsed(species) && !Occurs(species, IntSuffix)
    ensures var folder := "O" + sp + species + (if tagged then IntSuffix else "");
      FolderClassLabel(folder) == "O." + species && FolderClassLabelIntended(folder) == "O. " + species
  {
    var base := "O" + sp + species;
    NoIntInFolder(sp, species);
    if tagged {
      RemoveIntSuffix(base);
    } else {
      assert base + "" == base;
    }
    StripNothing(base);
    NormalizeOFolder(sp, species);
  }

  // ---------------------------------------------------------------------------
  // The class names the model predicts
  // ---------------------------------------------------------------------------

  /** The species part of each class the classifier predicts, in its order. */
  const Species: seq<string> :=
    ["exaltata", "garganica", "incubacea", "majellensis", "sphegodes", "sphegodes_Palena"]

  /** The class names the classifier predicts: "O. " then the species. */
  function ClassNamesOf(species: seq<string>): (r: seq<string>)
    ensures |r| == |species| && forall k :: 0 <= k < |r| ==> r[k] == "O. " + species[k]
  {
    seq(|species|, k requires 0 <= k < |species| => "O. " + species[k])
  }

  /** Every class name has ". " at positions 1 and 2. */
  lemma ClassNameShape(species: seq<string>, n: string)
    requires n in ClassNamesOf(species)
    ensures |n| >= 3 && n[1] == '.' && n[2] == ' '
  {
    var k :| 0 <= k < |species| && ClassNamesOf(species)[k] == n;
  }

  /**
   * As written, no folder "O<whitespace><species>" is labelled with any class
   * name: the label has the species' first letter where every class name has
   * a space, so the comparison with the prediction never succeeds.
   */
  lemma AsWrittenMatchesNoClass(sp: string, species: string, tagged: bool)
    requires |sp| > 0 && AllSpace(sp) && |species| > 0 && Collapsed(species) && !Occurs(species, IntSuffix)
    ensures FolderClassLabel("O" + sp + species + (if tagged then IntSuffix else "")) !in ClassNamesOf(Species)
  {
    FolderLabelOfSpecies(sp, species, tagged);
    var given := "O." + species;
    if given in ClassNamesOf(Species) {
      ClassNameShape(Species, given);
    }
  }

  /** With the corrected rewrite, the folder of each species is labelled with that species' class name. */
  lemma IntendedMatchesClass(sp: string, k: nat, tagged: bool)
    requires |sp| > 0 && AllSpace(sp) && k < |Species|
    ensures FolderClassLabelIntended("O" + sp + Species[k] + (if tagged then IntSuffix else ""))
            == ClassNamesOf(Species)[k]
  {
    var species := Species[k];
    assert NoSpace(species) && !Occurs(species, IntSuffix) by {
      SpeciesWellFormed(k);
    }
    FolderLabelOfSpecies(sp, species, tagged);
  }

  lemma SpeciesWellFormed(k: nat)
    requires k < |Species|
    ensures |Species[k]| > 0 && NoSpace(Species[k]) && Collapsed(Species[k]) && !Occurs(Species[k], IntSuffix)
  {
    var s := Species[k];
    assert |s| > 0 && Letters(s);
    LettersWord(s);
    WordCollapsed(s);
    NoIntWithoutI(s);
  }

  /** Letters, underscores and capitals other than I. */
  predicate Letters(s: string)
  {
    forall i :: 0 <= i < |s| ==> 'a' <= s[i] <= 'z' || s[i] == '_' || ('A' <= s[i] <= 'Z' && s[i] != 'I')
  }

  lemma LettersWord(s: string)
    requires |s| > 0 && Letters(s)
    ensures IsWord(s) && 'I' !in s
  {
  }

  /** A word is collapsed. */
  lemma WordCollapsed(w: string)
    requires IsWord(w)
    ensures Collapsed(w)
  {
  }

  /** "_Int" occurs only where there is an I. */
  lemma NoIntWithoutI(s: string)
    requires 'I' !in s
    ensures !Occurs(s, IntSuffix)
  {
    forall i: nat | i <= |s|
      ensures !MatchAt(s, IntSuffix, i)
    {
      if i + 4 <= |s| {
        assert s[i..i + 4][1] == s[i + 1];
      }
    }
  }

  /**
   * The folder "O  exaltata" ("O", two spaces, "exaltata") as the script
   * reads it: "O.exaltata", which is not a class name; the corrected rewrite
   * gives "O. exaltata", the first one.
   */
  lemma ExaltataFolder(gap: string, species: string)
    requires gap == "  " && species == "exaltata"
    ensures FolderClassLabel("O" + gap + species) == "O." + species
    ensures FolderClassLabel("O" + gap + species) !in ClassNamesOf(Species)
    ensures FolderClassLabelIntended("O" + gap + species) == "O. " + species == ClassNamesOf(Species)[0]
  {
    SpeciesWellFormed(0);
    assert "O" + gap + species == "O" + gap + species + "";
    FolderLabelOfSpecies(gap, species, false);
    AsWrittenMatchesNoClass(gap, species, false);
  }
}
