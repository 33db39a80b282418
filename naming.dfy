/** Name helpers of the generator: splitting camel case, the output file name, Go identifier
    validity and the choice of the output package name. Characters are classified as ASCII. */
module Naming {
  import opened Ascii
  import opened GoStrings

  /** A new word starts at position `i` when a lower-case letter is followed by an upper-case
      one, or when an upper-case letter is followed by a lower-case one (the last letter of an
      acronym starts the next word). */
  predicate IsBoundary(s: string, i: nat)
    requires 0 < i < |s|
  {
    (IsLower(s[i - 1]) && IsUpper(s[i])) || (IsUpper(s[i]) && i + 1 < |s| && IsLower(s[i + 1]))
  }

  /** The first boundary at or after `i`, or `|s|` when there is none. */
  function NextCut(s: string, i: nat): (r: nat)
    requires 0 < i
    ensures i <= |s| ==> i <= r <= |s|
    ensures i > |s| ==> r == |s|
    ensures r < |s| ==> IsBoundary(s, r)
    decreases |s| - i
  {
    if i >= |s| then |s| else if IsBoundary(s, i) then i else NextCut(s, i + 1)
  }

  /** There is no boundary before the next cut. */
  lemma {:induction false} NextCutIsFirst(s: string, i: nat)
    requires 0 < i
    ensures forall k :: i <= k < NextCut(s, i) ==> !IsBoundary(s, k)
    decreases |s| - i
  {
    if i < |s| && !IsBoundary(s, i) { NextCutIsFirst(s, i + 1); }
  }

  /** Reference definition of the split: each word runs from its start to the next boundary. */
  function WordsFrom(s: string, start: nat): (ws: seq<string>)
    requires start <= |s|
    ensures |ws| >= 1
    decreases |s| - start
  {
    var e := NextCut(s, start + 1);
    if e >= |s| then [s[start..]] else [s[start..e]] + WordsFrom(s, e)
  }

  function CamelWords(s: string): seq<string> {
    WordsFrom(s, 0)
  }

  /** The positions, counted from `base`, at which the second, third, ... word starts. */
  function StartsFrom(ws: seq<string>, base: nat): set<nat> {
    if |ws| <= 1 then {} else {base + |ws[0]|} + StartsFrom(ws[1..], base + |ws[0]|)
  }

  lemma {:induction false} WordsFromConcat(s: string, start: nat)
    requires start <= |s|
    ensures Concat(WordsFrom(s, start)) == s[start..]
    decreases |s| - start
  {
    var e := NextCut(s, start + 1);
    if e < |s| {
      WordsFromConcat(s, e);
      assert s[start..] == s[start..e] + s[e..];
    }
  }

  lemma {:induction false} WordsFromStarts(s: string, start: nat)
    requires start <= |s|
    ensures forall i :: i in StartsFrom(WordsFrom(s, start), start) ==> start < i < |s|
    ensures forall i :: start < i < |s| ==> (i in StartsFrom(WordsFrom(s, start), start) <==> IsBoundary(s, i))
    decreases |s| - start
  {
    var e := NextCut(s, start + 1);
    NextCutIsFirst(s, start + 1);
    if e < |s| {
      WordsFromStarts(s, e);
      var ws := WordsFrom(s, start);
      assert ws == [s[start..e]] + WordsFrom(s, e);
      assert ws[1..] == WordsFrom(s, e);
      assert StartsFrom(ws, start) == {e} + StartsFrom(WordsFrom(s, e), e);
    }
  }

  /** Joining the words of `splitCamelCase` gives back its input. */
  lemma CamelWordsConcat(s: string)
    ensures Concat(CamelWords(s)) == s
  {
    WordsFromConcat(s, 0);
  }

  /** A word starts at position `i > 0` exactly when `i` is a boundary. */
  lemma CamelWordsStarts(s: string)
    ensures forall i :: i in StartsFrom(CamelWords(s), 0) ==> 0 < i < |s|
    ensures forall i :: 0 < i < |s| ==> (i in StartsFrom(CamelWords(s), 0) <==> IsBoundary(s, i))
  {
    WordsFromStarts(s, 0);
  }

  /** No word is empty, except the single word of the empty string. */
  lemma {:induction false} WordsFromNonEmpty(s: string, start: nat)
    requires start < |s|
    ensures forall j :: 0 <= j < |WordsFrom(s, start)| ==> WordsFrom(s, start)[j] != ""
    decreases |s| - start
  {
    var e := NextCut(s, start + 1);
    if e < |s| { WordsFromNonEmpty(s, e); }
  }

  lemma CamelWordsShape(s: string)
    ensures s == "" ==> CamelWords(s) == [""]
    ensures s != "" ==> forall j :: 0 <= j < |CamelWords(s)| ==> CamelWords(s)[j] != ""
  {
    if s != "" { WordsFromNonEmpty(s, 0); }
  }

  /** The loop of `splitCamelCase` cutting a word at boundary `i`. */
  lemma CutStep(s: string, words: seq<string>, start: nat, i: nat)
    requires start < i < |s| && IsBoundary(s, i) && NextCut(s, start + 1) == NextCut(s, i)
    requires words + WordsFrom(s, start) == CamelWords(s)
    ensures (words + [s[start..i]]) + WordsFrom(s, i) == CamelWords(s)
  {
    assert WordsFrom(s, start) == [s[start..i]] + WordsFrom(s, i);
  }

  /** The loop of `splitCamelCase` passing over a position that is not a boundary. */
  lemma NoCutStep(s: string, start: nat, i: nat)
    requires 0 < i < |s| && !IsBoundary(s, i) && NextCut(s, start + 1) == NextCut(s, i)
    ensures NextCut(s, start + 1) == NextCut(s, i + 1)
  {
  }

  /** At the end of the input the current word is the last one. */
  lemma LastWord(s: string, words: seq<string>, start: nat)
    requires start <= |s| && NextCut(s, start + 1) == |s|
    requires words + WordsFrom(s, start) == CamelWords(s)
    ensures words + [s[start..]] == CamelWords(s)
  {
  }

  /** `splitCamelCase`: a single pass keeping the start of the current word and the previous
      character, peeking at the next one. */
  method SplitCamelCase(s: string) returns (words: seq<string>)
    ensures words == CamelWords(s)
  {
    words := [];
    var start := 0;
    var prev: char := '\0';
    var i := 0;
    while i < |s|
      invariant 0 <= i <= |s|
      invariant i == 0 ==> start == 0
      invariant i > 0 ==> start < i && prev == s[i - 1] && NextCut(s, start + 1) == NextCut(s, i)
      invariant start <= |s| && words + WordsFrom(s, start) == CamelWords(s)
    {
      var curr := s[i];
      if i == 0 {
        prev := curr;
        i := i + 1;
        continue;
      }
      var hasNext := i + 1 < |s|;
      var next := if hasNext then s[i + 1] else '\0';
      if (IsLower(prev) && IsUpper(curr)) || (IsUpper(curr) && hasNext && IsLower(next)) {
        CutStep(s, words, start, i);
        words := words + [s[start..i]];
        start := i;
      } else {
        NoCutStep(s, start, i);
      }
      prev := curr;
      i := i + 1;
    }
    LastWord(s, words, start);
    words := words + [s[start..]];
  }

  /** Every word lower-cased. */
  function LowerWords(ws: seq<string>): (r: seq<string>)
    ensures |r| == |ws|
    ensures forall j :: 0 <= j < |ws| ==> r[j] == ToLower(ws[j])
  {
    if ws == [] then [] else [ToLower(ws[0])] + LowerWords(ws[1..])
  }

  lemma {:induction false} LowerWordsConcat(ws: seq<string>)
    ensures Concat(LowerWords(ws)) == ToLower(Concat(ws))
  {
    if ws != [] {
      LowerWordsConcat(ws[1..]);
      ToLowerAppend(ws[0], Concat(ws[1..]));
    }
  }

  /** The words of the output file name, lower-cased and put together again, spell the
      lower-cased type name. */
  lemma FileNameWords(typeName: string)
    ensures Concat(LowerWords(CamelWords(typeName))) == ToLower(typeName)
  {
    LowerWordsConcat(CamelWords(typeName));
    CamelWordsConcat(typeName);
  }

  /** A name with no upper-case letter is a single word. */
  lemma NoUpperIsOneWord(s: string)
    requires forall i :: 0 <= i < |s| ==> !IsUpper(s[i])
    ensures CamelWords(s) == [s]
  {
    var e := NextCut(s, 1);
    assert e == |s|;
  }

  /** For such a type name the output file is the name followed by "_enum.go". */
  lemma FileNameOfLowerCaseType(typeName: string)
    requires forall i :: 0 <= i < |typeName| ==> !IsUpper(typeName[i])
    ensures Join(LowerWords(CamelWords(typeName)), "_") + "_enum.go" == typeName + "_enum.go"
  {
    NoUpperIsOneWord(typeName);
    assert ToLower(typeName) == typeName;
    assert LowerWords([typeName]) == [typeName];
  }

  /** `getFileNameForType`: the camel-case words, lower-cased in place, joined by "_",
      followed by "_enum.go". */
  method FileNameForType(typeName: string) returns (r: string)
    ensures r == Join(LowerWords(CamelWords(typeName)), "_") + "_enum.go"
  {
    var split := SplitCamelCase(typeName);
    var words := new string[|split|](k requires 0 <= k < |split| => split[k]);
    for i := 0 to words.Length
      invariant forall k :: 0 <= k < i ==> words[k] == ToLower(split[k])
      invariant forall k :: i <= k < words.Length ==> words[k] == split[k]
    {
      words[i] := ToLower(words[i]);
    }
    assert words[..] == LowerWords(split);
    r := Join(words[..], "_") + "_enum.go";
  }

  /** A Go identifier (ASCII letters only): a letter or '_' first, then letters, digits or '_'. */
  predicate IsGoIdentifier(s: string) {
    && |s| > 0
    && (IsLetter(s[0]) || s[0] == '_')
    && forall i :: 1 <= i < |s| ==> IsLetter(s[i]) || IsDigit(s[i]) || s[i] == '_'
  }

  /** `isValidGoIdentifier`: a scan with early return on the first bad character. */
  method IsValidGoIdentifier(s: string) returns (ok: bool)
    ensures ok == IsGoIdentifier(s)
  {
    if s == "" {
      return false;
    }
    for i := 0 to |s|
      invariant i > 0 ==> IsLetter(s[0]) || s[0] == '_'
      invariant forall k :: 1 <= k < i ==> IsLetter(s[k]) || IsDigit(s[k]) || s[k] == '_'
    {
      if i == 0 {
        if !IsLetter(s[i]) && s[i] != '_' {
          return false;
        }
      } else {
        if !IsLetter(s[i]) && !IsDigit(s[i]) && s[i] != '_' {
          return false;
        }
      }
    }
    return true;
  }

  /** Cases from the package's tests of `splitCamelCase`. */
  lemma SplitCamelCaseExamples()
    ensures CamelWords("") == [""]
    ensures CamelWords("internalIP") == ["internal", "IP"]
    ensures CamelWords("HTTPResponseCode") == ["HTTP", "Response", "Code"]
  {
    var t := "internalIP";
    assert NextCut(t, 1) == NextCut(t, 2) == NextCut(t, 3) == NextCut(t, 4) == NextCut(t, 5) == NextCut(t, 6) == NextCut(t, 7) == NextCut(t, 8) == 8;
    assert NextCut(t, 9) == NextCut(t, 10) == 10;
    assert WordsFrom(t, 8) == [t[8..]];
    assert WordsFrom(t, 0) == [t[0..8]] + WordsFrom(t, 8);
    assert t[0..8] == "internal" && t[8..] == "IP";
    var h := "HTTPResponseCode";
    assert NextCut(h, 1) == NextCut(h, 2) == NextCut(h, 3) == NextCut(h, 4) == 4;
    assert NextCut(h, 5) == NextCut(h, 6) == NextCut(h, 7) == NextCut(h, 8) == NextCut(h, 9) == NextCut(h, 10) == NextCut(h, 11) == NextCut(h, 12) == 12;
    assert NextCut(h, 13) == NextCut(h, 14) == NextCut(h, 15) == NextCut(h, 16) == 16;
    assert WordsFrom(h, 12) == [h[12..]];
    assert WordsFrom(h, 4) == [h[4..12]] + WordsFrom(h, 12);
    assert WordsFrom(h, 0) == [h[0..4]] + WordsFrom(h, 4);
    assert h[0..4] == "HTTP" && h[4..12] == "Response" && h[12..] == "Code";
  }

  /** The `jobStatus` case of the tests of `getFileNameForType`: the split is the one the
      comment on `splitCamelCase` gives, ["job", "Status"]. */
  lemma JobStatusFileName()
    ensures CamelWords("jobStatus") == ["job", "Status"]
    ensures Join(LowerWords(CamelWords("jobStatus")), "_") + "_enum.go" == "job_status_enum.go"
  {
    var s := "jobStatus";
    assert NextCut(s, 1) == NextCut(s, 2) == NextCut(s, 3) == 3;
    assert NextCut(s, 4) == NextCut(s, 5) == NextCut(s, 6) == NextCut(s, 7) == NextCut(s, 8) == NextCut(s, 9) == 9;
    assert WordsFrom(s, 3) == [s[3..]];
    assert WordsFrom(s, 0) == [s[0..3]] + WordsFrom(s, 3);
    assert s[0..3] == "job" && s[3..] == "Status";
    assert ToLower("job") == "job" && ToLower("Status") == "status";
    assert LowerWords(["job", "Status"]) == ["job", "status"];
  }

  /** Cases from the package's tests of `isValidGoIdentifier`. */
  lemma GoIdentifierExamples()
    ensures !IsGoIdentifier("") && !IsGoIdentifier("123abc")
    ensures IsGoIdentifier("abc123") && IsGoIdentifier("abc_123") && IsGoIdentifier("_abc123")
  {
  }

  /** The output package name of `Generate`: the source package when no output path is set,
      else the base name of the path when it is a valid identifier, else "enum". */
  function PackageName(sourcePkg: string, path: string, baseDir: string): (r: string)
    ensures path == "" ==> r == sourcePkg
    ensures path != "" ==> IsGoIdentifier(r) && (r == baseDir || r == "enum")
    ensures path != "" && r == "enum" && baseDir != "enum" ==> !IsGoIdentifier(baseDir)
  {
    if path == "" then sourcePkg else if IsGoIdentifier(baseDir) then baseDir else "enum"
  }
}
