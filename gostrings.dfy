/** The parts of Go's `strings` and `sort` packages the generator relies on. */
module GoStrings {

  /** `strings.HasPrefix`. */
  predicate HasPrefix(s: string, prefix: string) {
    |prefix| <= |s| && s[..|prefix|] == prefix
  }

  /** `strings.TrimPrefix`: drops `prefix` once when present, else returns `s` unchanged. */
  function TrimPrefix(s: string, prefix: string): (r: string)
    ensures HasPrefix(s, prefix) ==> prefix + r == s
    ensures !HasPrefix(s, prefix) ==> r == s
  {
    if HasPrefix(s, prefix) then s[|prefix|..] else s
  }

  /** Concatenation of all words, in order. */
  function Concat(ws: seq<string>): string {
    if ws == [] then "" else ws[0] + Concat(ws[1..])
  }

  lemma {:induction false} ConcatAppend(ws: seq<string>, w: string)
    ensures Concat(ws + [w]) == Concat(ws) + w
  {
    if ws != [] {
      assert (ws + [w])[1..] == ws[1..] + [w];
      ConcatAppend(ws[1..], w);
    }
  }

  /** `strings.Join`. */
  function Join(ws: seq<string>, sep: string): string {
    if ws == [] then "" else if |ws| == 1 then ws[0] else ws[0] + sep + Join(ws[1..], sep)
  }

  /** Go's `<` on strings: byte-wise lexicographic order (for ASCII, the order of the characters). */
  predicate Less(a: string, b: string) {
    if a == [] then b != []
    else b != [] && (a[0] < b[0] || (a[0] == b[0] && Less(a[1..], b[1..])))
  }

  lemma {:induction false} LessIrreflexive(a: string)
    ensures !Less(a, a)
  {
    if a != [] { LessIrreflexive(a[1..]); }
  }

  lemma {:induction false} LessTransitive(a: string, b: string, c: string)
    requires Less(a, b) && Less(b, c)
    ensures Less(a, c)
  {
    if a != [] && a[0] == b[0] && b[0] == c[0] {
      LessTransitive(a[1..], b[1..], c[1..]);
    }
  }

  lemma {:induction false} LessTotal(a: string, b: string)
    requires a != b
    ensures Less(a, b) || Less(b, a)
  {
    if a != [] && b != [] && a[0] == b[0] {
      assert a == [a[0]] + a[1..] && b == [b[0]] + b[1..];
      LessTotal(a[1..], b[1..]);
    }
  }

  lemma {:induction false} LessSharedPrefix(p: string, a: string, b: string)
    requires Less(a, b)
    ensures Less(p + a, p + b)
  {
    if p != [] {
      var x, y := p + a, p + b;
      assert x[0] == p[0] == y[0];
      assert x[1..] == p[1..] + a && y[1..] == p[1..] + b;
      LessSharedPrefix(p[1..], a, b);
    } else {
      assert p + a == a && p + b == b;
    }
  }

  lemma LessAsymmetric(a: string, b: string)
    requires Less(a, b)
    ensures !Less(b, a)
  {
    if Less(b, a) { LessTransitive(a, b, a); LessIrreflexive(a); }
  }

  /** The set of elements of a list. */
  function Elems(s: seq<string>): set<string> {
    set x | x in s
  }

  lemma ElemsEmpty(s: seq<string>)
    ensures Elems(s) == {} <==> s == []
  {
    if s != [] { assert s[0] in Elems(s); }
  }

  /** Every element is strictly below every later one: sorted and without duplicates. */
  predicate StrictlyAscending(s: seq<string>) {
    forall i, j :: 0 <= i < j < |s| ==> Less(s[i], s[j])
  }

  /** Ascending neighbours make an ascending sequence. */
  lemma {:induction false} AdjacentAscending(s: seq<string>)
    requires forall i :: 0 <= i < |s| - 1 ==> Less(s[i], s[i + 1])
    ensures StrictlyAscending(s)
  {
    if |s| > 1 {
      var t := s[..|s| - 1];
      forall i | 0 <= i < |t| - 1
        ensures Less(t[i], t[i + 1])
      {
        assert t[i] == s[i] && t[i + 1] == s[i + 1];
      }
      AdjacentAscending(t);
      forall i, j | 0 <= i < j < |s|
        ensures Less(s[i], s[j])
      {
        if j < |s| - 1 {
          assert s[i] == t[i] && s[j] == t[j];
        } else if i < j - 1 {
          assert s[i] == t[i] && s[j - 1] == t[j - 1];
          LessTransitive(s[i], s[j - 1], s[j]);
        }
      }
    }
  }

  /** A strictly ascending sequence is determined by its set of elements. */
  lemma {:induction false} AscendingUnique(s: seq<string>, t: seq<string>)
    requires StrictlyAscending(s) && StrictlyAscending(t)
    requires Elems(s) == Elems(t)
    ensures s == t
  {
    ElemsEmpty(s);
    ElemsEmpty(t);
    if s != [] && t != [] {
      assert s[0] in Elems(s) && t[0] in Elems(t);
      if s[0] != t[0] {
        var i :| 0 <= i < |t| && t[i] == s[0];
        var j :| 0 <= j < |s| && s[j] == t[0];
        assert i > 0 && j > 0;
        assert Less(t[0], s[0]) && Less(s[0], t[0]);
        LessAsymmetric(t[0], s[0]);
      }
      assert s == [s[0]] + s[1..] && t == [t[0]] + t[1..];
      forall x | x in s[1..] ensures x in t[1..] {
        var k :| 1 <= k < |s| && s[k] == x;
        LessIrreflexive(s[0]);
        assert x != s[0];
        assert x in Elems(s);
      }
      forall x | x in t[1..] ensures x in s[1..] {
        var k :| 1 <= k < |t| && t[k] == x;
        LessIrreflexive(t[0]);
        assert x != t[0];
        assert x in Elems(t);
      }
      assert Elems(s[1..]) == Elems(t[1..]);
      AscendingUnique(s[1..], t[1..]);
      assert s == [s[0]] + s[1..] && t == [t[0]] + t[1..];
    }
  }

  /** Inserts `x` at its place in a strictly ascending sequence. */
  function Insert(s: seq<string>, x: string): (r: seq<string>)
    requires StrictlyAscending(s) && x !in s
    ensures StrictlyAscending(r)
    ensures |r| == |s| + 1
    ensures Elems(r) == Elems(s) + {x}
  {
    if s == [] then [x]
    else if Less(x, s[0]) then
      assert forall j :: 0 < j < |s| ==> Less(x, s[j]) by {
        forall j | 0 < j < |s| ensures Less(x, s[j]) { LessTransitive(x, s[0], s[j]); }
      }
      [x] + s
    else
      LessTotal(x, s[0]);
      var rest := Insert(s[1..], x);
      forall y | y in rest ensures Less(s[0], y) {
        assert y in Elems(rest);
        if y != x { assert y in Elems(s[1..]); }
      }
      [s[0]] + rest
  }

  /** `sort.Strings` on a list without duplicates: an insertion sort whose result is the
      strictly ascending arrangement of the same strings. */
  method SortStrings(names: seq<string>) returns (sorted: seq<string>)
    requires forall i, j :: 0 <= i < j < |names| ==> names[i] != names[j]
    ensures StrictlyAscending(sorted)
    ensures |sorted| == |names|
    ensures Elems(sorted) == Elems(names)
  {
    sorted := [];
    var i := 0;
    while i < |names|
      invariant 0 <= i <= |names|
      invariant StrictlyAscending(sorted) && |sorted| == i
      invariant Elems(sorted) == Elems(names[..i])
    {
      assert names[i] !in Elems(names[..i]);
      assert names[..i + 1] == names[..i] + [names[i]];
      sorted := Insert(sorted, names[i]);
      i := i + 1;
    }
    assert names[..i] == names;
  }
}
