/** What `parseConstBlock` records, stated as functions over an abstract syntax:
    a package holds files, a file holds its `const` blocks in inspection order, and a
    block holds specs (a spec is one line of the block). */
module Collector {
  import opened GoStrings

  datatype Spec =
    | OtherSpec                        // a spec that is not an `*ast.ValueSpec`
    | ValueSpec(names: seq<string>)    // the names bound on that line

  type Block = seq<Spec>

  type File = seq<Block>

  datatype Package = Package(name: string, files: seq<File>)

  const Placeholder: string := "_"

  /** The non-placeholder names, in order. */
  function Recorded(names: seq<string>): (r: seq<string>) {
    if names == [] then []
    else
      var last := names[|names| - 1];
      Recorded(names[..|names| - 1]) + (if last != Placeholder then [last] else [])
  }

  lemma {:induction false} RecordedMembers(names: seq<string>)
    ensures Placeholder !in Recorded(names)
    ensures forall n :: n in Recorded(names) <==> n in names && n != Placeholder
  {
    if names != [] {
      RecordedMembers(names[..|names| - 1]);
      assert names == names[..|names| - 1] + [names[|names| - 1]];
    }
  }

  /** A spec counts when it is a value spec whose first name carries the type prefix. */
  predicate Counts(typeName: string, s: Spec) {
    s.ValueSpec? && |s.names| > 0 && HasPrefix(s.names[0], typeName)
  }

  /** The names one spec records, in order; each takes one counter tick. */
  function SpecEntries(typeName: string, s: Spec): seq<string> {
    if Counts(typeName, s) then Recorded(s.names) else []
  }

  /** The names a block records, in order: entry `k` gets counter value `k`. */
  function BlockEntries(typeName: string, b: Block): seq<string> {
    if b == [] then []
    else BlockEntries(typeName, b[..|b| - 1]) + SpecEntries(typeName, b[|b| - 1])
  }

  /** Assigns `base`, `base + 1`, ... to the names in order; a later name overwrites. */
  function AssignFrom(m: map<string, int>, names: seq<string>, base: int): map<string, int> {
    if names == [] then m
    else AssignFrom(m, names[..|names| - 1], base)[names[|names| - 1] := base + |names| - 1]
  }

  /** The values map after one block, with the counter starting at 0. */
  function CollectBlock(typeName: string, m: map<string, int>, b: Block): map<string, int> {
    AssignFrom(m, BlockEntries(typeName, b), 0)
  }

  /** The values map after a run of blocks, each with its own counter. */
  function CollectBlocks(typeName: string, m: map<string, int>, bs: seq<Block>): map<string, int> {
    if bs == [] then m
    else CollectBlock(typeName, CollectBlocks(typeName, m, bs[..|bs| - 1]), bs[|bs| - 1])
  }

  /** All blocks of the files of a package, file after file. */
  function FileBlocks(files: seq<File>): seq<Block> {
    if files == [] then [] else FileBlocks(files[..|files| - 1]) + files[|files| - 1]
  }

  /** All blocks of all packages, package after package. */
  function AllBlocks(pkgs: seq<Package>): seq<Block> {
    if pkgs == [] then [] else AllBlocks(pkgs[..|pkgs| - 1]) + FileBlocks(pkgs[|pkgs| - 1].files)
  }

  /** Every name recorded by a run of blocks, block after block. */
  function AllEntries(typeName: string, bs: seq<Block>): seq<string> {
    if bs == [] then [] else AllEntries(typeName, bs[..|bs| - 1]) + BlockEntries(typeName, bs[|bs| - 1])
  }

  // ---------------------------------------------------------------------------------------
  // One step of the walk, as the imperative code takes it

  lemma BlockEntriesStep(typeName: string, b: Block, i: nat)
    requires i < |b|
    ensures BlockEntries(typeName, b[..i + 1]) == BlockEntries(typeName, b[..i]) + SpecEntries(typeName, b[i])
  {
    assert b[..i + 1][..i] == b[..i];
  }

  lemma RecordedStep(names: seq<string>, j: nat)
    requires j < |names|
    ensures Recorded(names[..j + 1]) == Recorded(names[..j]) + (if names[j] != Placeholder then [names[j]] else [])
  {
    assert names[..j + 1][..j] == names[..j];
  }

  lemma AssignFromStep(m: map<string, int>, names: seq<string>, n: string, base: int)
    ensures AssignFrom(m, names + [n], base) == AssignFrom(m, names, base)[n := base + |names|]
  {
    assert (names + [n])[..|names|] == names;
  }

  lemma CollectBlocksStep(typeName: string, m: map<string, int>, bs: seq<Block>, i: nat)
    requires i < |bs|
    ensures CollectBlocks(typeName, m, bs[..i + 1]) == CollectBlock(typeName, CollectBlocks(typeName, m, bs[..i]), bs[i])
  {
    assert bs[..i + 1][..i] == bs[..i];
  }

  // ---------------------------------------------------------------------------------------
  // Properties of the walk

  lemma {:induction false} BlockEntriesAppend(typeName: string, a: Block, b: Block)
    ensures BlockEntries(typeName, a + b) == BlockEntries(typeName, a) + BlockEntries(typeName, b)
    decreases |b|
  {
    if b == [] {
      assert a + b == a;
    } else {
      assert (a + b)[..|a + b| - 1] == a + b[..|b| - 1];
      BlockEntriesAppend(typeName, a, b[..|b| - 1]);
    }
  }

  lemma {:induction false} AssignFromAppend(m: map<string, int>, a: seq<string>, b: seq<string>, base: int)
    ensures AssignFrom(m, a + b, base) == AssignFrom(AssignFrom(m, a, base), b, base + |a|)
    decreases |b|
  {
    if b == [] {
      assert a + b == a;
    } else {
      assert (a + b)[..|a + b| - 1] == a + b[..|b| - 1];
      AssignFromAppend(m, a, b[..|b| - 1], base);
    }
  }

  lemma {:induction false} CollectBlocksAppend(typeName: string, m: map<string, int>, a: seq<Block>, b: seq<Block>)
    ensures CollectBlocks(typeName, m, a + b) == CollectBlocks(typeName, CollectBlocks(typeName, m, a), b)
    decreases |b|
  {
    if b == [] {
      assert a + b == a;
    } else {
      assert (a + b)[..|a + b| - 1] == a + b[..|b| - 1];
      CollectBlocksAppend(typeName, m, a, b[..|b| - 1]);
    }
  }

  /** The keys after assigning are the old keys and the assigned names; names not assigned
      keep their old value. */
  lemma {:induction false} AssignFromKeys(m: map<string, int>, names: seq<string>, base: int)
    ensures forall n :: n in AssignFrom(m, names, base) <==> n in m || n in names
    ensures forall n :: n in m && n !in names ==> AssignFrom(m, names, base)[n] == m[n]
  {
    if names != [] {
      var init := names[..|names| - 1];
      AssignFromKeys(m, init, base);
      assert names == init + [names[|names| - 1]];
    }
  }

  /** What a block assigns does not depend on the map it starts from: it overrides it. */
  lemma {:induction false} AssignFromOverrides(m: map<string, int>, names: seq<string>, base: int)
    ensures AssignFrom(m, names, base) == m + AssignFrom(map[], names, base)
  {
    if names != [] {
      var init, n := names[..|names| - 1], names[|names| - 1];
      AssignFromOverrides(m, init, base);
      var v := base + |names| - 1;
      assert (m + AssignFrom(map[], init, base))[n := v] == m + AssignFrom(map[], init, base)[n := v];
    }
  }

  /** A name that does not occur again later keeps the value of its position. */
  lemma {:induction false} AssignFromAt(m: map<string, int>, names: seq<string>, base: int, k: nat)
    requires k < |names| && names[k] !in names[k + 1..]
    ensures names[k] in AssignFrom(m, names, base)
    ensures AssignFrom(m, names, base)[names[k]] == base + k
  {
    var init := names[..|names| - 1];
    if k < |names| - 1 {
      assert init[k + 1..] + [names[|names| - 1]] == names[k + 1..];
      AssignFromAt(m, init, base, k);
    }
  }

  /** Within one block the counter starts at 0: the `k`-th recorded name receives `k`
      (unless it is recorded again later in the block, which overwrites it). */
  lemma BlockValueIsPosition(typeName: string, m: map<string, int>, b: Block, k: nat)
    requires k < |BlockEntries(typeName, b)|
    requires BlockEntries(typeName, b)[k] !in BlockEntries(typeName, b)[k + 1..]
    ensures BlockEntries(typeName, b)[k] in CollectBlock(typeName, m, b)
    ensures CollectBlock(typeName, m, b)[BlockEntries(typeName, b)[k]] == k
  {
    AssignFromAt(m, BlockEntries(typeName, b), 0, k);
  }

  /** The usual block, one prefixed name per line: the names in order are what it records. */
  lemma {:induction false} OneNamePerSpec(typeName: string, b: Block)
    requires forall i :: 0 <= i < |b| ==>
      b[i].ValueSpec? && |b[i].names| == 1 && HasPrefix(b[i].names[0], typeName) && b[i].names[0] != Placeholder
    ensures BlockEntries(typeName, b) == seq(|b|, i requires 0 <= i < |b| => b[i].names[0])
  {
    if b != [] {
      var last := b[|b| - 1];
      OneNamePerSpec(typeName, b[..|b| - 1]);
      RecordedStep(last.names, 0);
      assert last.names[..0] == [] && last.names[..1] == last.names;
    }
  }

  /** A spec that does not count is skipped entirely: removing it changes no value, so it
      neither adds entries nor advances the counter. */
  lemma SkippedSpec(typeName: string, m: map<string, int>, pre: Block, s: Spec, post: Block)
    requires !s.ValueSpec? || |s.names| == 0 || !HasPrefix(s.names[0], typeName)
    ensures CollectBlock(typeName, m, pre + [s] + post) == CollectBlock(typeName, m, pre + post)
  {
    BlockEntriesAppend(typeName, pre + [s], post);
    BlockEntriesAppend(typeName, pre, post);
    assert (pre + [s])[..|pre|] == pre;
    assert BlockEntries(typeName, pre + [s]) == BlockEntries(typeName, pre);
  }

  lemma {:induction false} RecordedAppend(a: seq<string>, b: seq<string>)
    ensures Recorded(a + b) == Recorded(a) + Recorded(b)
    decreases |b|
  {
    if b == [] {
      assert a + b == a;
    } else {
      assert (a + b)[..|a + b| - 1] == a + b[..|b| - 1];
      RecordedAppend(a, b[..|b| - 1]);
    }
  }

  /** A placeholder after the first name of a counting spec takes no counter tick: the spec
      records exactly what it records without it. */
  lemma PlaceholderTakesNoTick(typeName: string, first: string, mid: seq<string>, rest: seq<string>)
    ensures SpecEntries(typeName, ValueSpec([first] + mid + [Placeholder] + rest))
         == SpecEntries(typeName, ValueSpec([first] + mid + rest))
  {
    var head := [first] + mid;
    var with, without := head + [Placeholder] + rest, head + rest;
    assert with[0] == first && without[0] == first;
    RecordedAppend(head + [Placeholder], rest);
    RecordedAppend(head, rest);
    assert (head + [Placeholder])[..|head|] == head;
    assert Recorded(head + [Placeholder]) == Recorded(head);
  }

  lemma {:induction false} BlockEntriesMembers(typeName: string, b: Block)
    ensures Placeholder !in BlockEntries(typeName, b)
    ensures forall i, n :: 0 <= i < |b| && n in SpecEntries(typeName, b[i]) ==> n in BlockEntries(typeName, b)
    ensures forall n :: n in BlockEntries(typeName, b) ==> exists i :: 0 <= i < |b| && n in SpecEntries(typeName, b[i])
  {
    if b != [] {
      var init := b[..|b| - 1];
      BlockEntriesMembers(typeName, init);
      if b[|b| - 1].ValueSpec? { RecordedMembers(b[|b| - 1].names); }
      forall n | n in BlockEntries(typeName, b)
        ensures exists i :: 0 <= i < |b| && n in SpecEntries(typeName, b[i])
      {
        if n in BlockEntries(typeName, init) {
          var i :| 0 <= i < |init| && n in SpecEntries(typeName, init[i]);
          assert b[i] == init[i];
        } else {
          assert n in SpecEntries(typeName, b[|b| - 1]);
        }
      }
      forall i, n | 0 <= i < |b| && n in SpecEntries(typeName, b[i]) ensures n in BlockEntries(typeName, b) {
        if i < |b| - 1 { assert b[i] == init[i]; }
      }
    }
  }

  /** Every name on a counting spec is recorded, the ones without the prefix included,
      except the placeholder. */
  lemma AllNamesOfCountingSpec(typeName: string, m: map<string, int>, b: Block, i: nat, n: string)
    requires i < |b| && b[i].ValueSpec? && |b[i].names| > 0 && HasPrefix(b[i].names[0], typeName)
    requires n in b[i].names && n != Placeholder
    ensures n in CollectBlock(typeName, m, b)
  {
    RecordedMembers(b[i].names);
    BlockEntriesMembers(typeName, b);
    AssignFromKeys(m, BlockEntries(typeName, b), 0);
  }

  /** The keys of the values map are the earlier keys and the names recorded anywhere. */
  lemma {:induction false} CollectBlocksKeys(typeName: string, m: map<string, int>, bs: seq<Block>)
    ensures forall n :: n in CollectBlocks(typeName, m, bs) <==> n in m || n in AllEntries(typeName, bs)
  {
    if bs != [] {
      var init := bs[..|bs| - 1];
      CollectBlocksKeys(typeName, m, init);
      AssignFromKeys(CollectBlocks(typeName, m, init), BlockEntries(typeName, bs[|bs| - 1]), 0);
    }
  }

  lemma {:induction false} NoPlaceholderInEntries(typeName: string, bs: seq<Block>)
    ensures Placeholder !in AllEntries(typeName, bs)
  {
    if bs != [] {
      NoPlaceholderInEntries(typeName, bs[..|bs| - 1]);
      BlockEntriesMembers(typeName, bs[|bs| - 1]);
    }
  }

  /** Starting from an empty map, "_" never becomes a key. */
  lemma PlaceholderNeverKey(typeName: string, bs: seq<Block>)
    ensures Placeholder !in CollectBlocks(typeName, map[], bs)
  {
    CollectBlocksKeys(typeName, map[], bs);
    NoPlaceholderInEntries(typeName, bs);
  }

  /** Starting from an empty map, nothing is collected exactly when no block records a name. */
  lemma EmptyIffNoEntries(typeName: string, bs: seq<Block>)
    ensures |CollectBlocks(typeName, map[], bs)| == 0 <==> AllEntries(typeName, bs) == []
  {
    CollectBlocksKeys(typeName, map[], bs);
    var r := CollectBlocks(typeName, map[], bs);
    if AllEntries(typeName, bs) != [] {
      assert AllEntries(typeName, bs)[0] in r;
    } else {
      assert r.Keys == {};
    }
  }
}
