/** The generator applied to the `status` example: the const block of its source, the values
    the walk assigns, and the agreement of the generated tables with them. */
module StatusGeneration {
  import opened Wrappers
  import opened Ascii
  import opened GoStrings
  import opened Collector
  import opened Generator
  import opened StatusEnum

  /** `const ( statusUnknown status = iota; statusActive; statusInactive; statusBlocked )`. */
  const StatusBlock: Block := [
    ValueSpec(["statusUnknown"]), ValueSpec(["statusActive"]),
    ValueSpec(["statusInactive"]), ValueSpec(["statusBlocked"])
  ]

  /** The private names in alphabetical order. */
  const SortedPrivateNames: seq<string> := ["statusActive", "statusBlocked", "statusInactive", "statusUnknown"]

  /** Each of the four specs counts and records its one name. */
  lemma StatusBlockEntries()
    ensures BlockEntries("status", StatusBlock) == ["statusUnknown", "statusActive", "statusInactive", "statusBlocked"]
  {
    var b := StatusBlock;
    forall i | 0 <= i < |b|
      ensures b[i].ValueSpec? && |b[i].names| == 1 && HasPrefix(b[i].names[0], "status") && b[i].names[0] != Placeholder
    {
      assert |b[i].names[0]| >= 6;
    }
    OneNamePerSpec("status", b);
  }

  /** The map the walk builds from `status.go`. */
  const StatusMap: map<string, int> :=
    map["statusUnknown" := 0, "statusActive" := 1, "statusInactive" := 2, "statusBlocked" := 3]

  /** Counter values 0 to 3 given to the four names in declaration order. */
  lemma StatusEntriesNumbered()
    ensures AssignFrom(map[], ["statusUnknown", "statusActive", "statusInactive", "statusBlocked"], 0) == StatusMap
  {
    var a, b, c, d := "statusUnknown", "statusActive", "statusInactive", "statusBlocked";
    var m0: map<string, int> := map[];
    AssignFromStep(m0, [], a, 0);
    assert [] + [a] == [a];
    var m1 := AssignFrom(m0, [a], 0);
    assert m1 == m0[a := 0];
    AssignFromStep(m0, [a], b, 0);
    assert [a] + [b] == [a, b];
    var m2 := AssignFrom(m0, [a, b], 0);
    assert m2 == m1[b := 1];
    AssignFromStep(m0, [a, b], c, 0);
    assert [a, b] + [c] == [a, b, c];
    var m3 := AssignFrom(m0, [a, b, c], 0);
    assert m3 == m2[c := 2];
    AssignFromStep(m0, [a, b, c], d, 0);
    assert [a, b, c] + [d] == [a, b, c, d];
    assert AssignFrom(m0, [a, b, c, d], 0) == m3[d := 3];
  }

  /** The walk numbers the four constants 0 to 3 in declaration order, over whatever the
      map already held. */
  lemma StatusBlockValues(m: map<string, int>)
    ensures CollectBlocks("status", m, [StatusBlock]) == m + StatusMap
  {
    StatusBlockEntries();
    StatusEntriesNumbered();
    AssignFromOverrides(m, BlockEntries("status", StatusBlock), 0);
    CollectBlocksStep("status", m, [StatusBlock], 0);
    assert [StatusBlock][..0] == [] && [StatusBlock][..1] == [StatusBlock];
  }

  /** The suffixes after "status", in order. */
  const Suffixes: seq<string> := ["Active", "Blocked", "Inactive", "Unknown"]

  lemma SortedIsPrefixed(i: nat)
    requires i < 4
    ensures |SortedPrivateNames| == |Suffixes| == 4
    ensures SortedPrivateNames[i] == "status" + Suffixes[i]
  {
  }

  lemma SuffixesAscend(i: nat)
    requires i < 3
    ensures Less(Suffixes[i], Suffixes[i + 1])
  {
  }

  lemma SortedPrivateNamesAscending()
    ensures StrictlyAscending(SortedPrivateNames)
  {
    var ns := SortedPrivateNames;
    forall i | 0 <= i < |ns| - 1
      ensures Less(ns[i], ns[i + 1])
    {
      SortedIsPrefixed(i);
      SortedIsPrefixed(i + 1);
      SuffixesAscend(i);
      LessSharedPrefix("status", Suffixes[i], Suffixes[i + 1]);
    }
    AdjacentAscending(ns);
  }

  /** The example package: one file holding the one const block. The package's other files
      (status_enum.go and the two test files) have no const block whose first name starts with
      "status", so they add nothing to the walk. */
  const StatusPackage: Package := Package("status", [[StatusBlock]])

  /** `Parse` on the example package, from the empty map of `New`, sees exactly the one
      const block. */
  lemma ParsedStatusMap()
    ensures CollectBlocks("status", map[], AllBlocks([StatusPackage])) == StatusMap
  {
    var pk := StatusPackage;
    var m: map<string, int> := map[];
    assert [pk][..0] == [] && [[StatusBlock]][..0] == [];
    assert FileBlocks(pk.files) == FileBlocks([]) + [StatusBlock];
    assert AllBlocks([pk]) == AllBlocks([]) + FileBlocks(pk.files);
    StatusBlockValues(m);
    assert m + StatusMap == StatusMap;
  }

  /** Whatever order the map is traversed in, the private names generated from `status.go`
      come out in this order. */
  lemma GeneratedPrivateNames(title: string -> string, vs: seq<Value>)
    requires IsValueList("status", StatusMap, title, vs)
    ensures PrivateNames(vs) == SortedPrivateNames
  {
    SortedPrivateNamesAscending();
    assert Elems(SortedPrivateNames) == StatusMap.Keys;
    AscendingUnique(PrivateNames(vs), SortedPrivateNames);
  }

  lemma TrimmedLowered(suffix: string)
    ensures TrimPrefix("status" + suffix, "status") == suffix
  {
    assert ("status" + suffix)[..6] == "status";
  }

  lemma LowerSuffixes()
    ensures ToLower("Active") == "active" && ToLower("Blocked") == "blocked"
    ensures ToLower("Inactive") == "inactive" && ToLower("Unknown") == "unknown"
  {
  }

  lemma StatusMapLookups()
    ensures "statusActive" in StatusMap && StatusMap["statusActive"] == 1
    ensures "statusBlocked" in StatusMap && StatusMap["statusBlocked"] == 3
    ensures "statusInactive" in StatusMap && StatusMap["statusInactive"] == 2
    ensures "statusUnknown" in StatusMap && StatusMap["statusUnknown"] == 0
  {
  }

  /** Position by position, the sorted private names carry the numbers of `StatusValues()`
      and, prefix trimmed and lower-cased, their names. */
  lemma SortedNameMatches(i: nat)
    requires i < |StatusValues()|
    ensures SortedPrivateNames[i] in StatusMap
    ensures StatusMap[SortedPrivateNames[i]] == StatusValues()[i].value
    ensures ToLower(TrimPrefix(SortedPrivateNames[i], "status")) == StatusValues()[i].name
  {
    LowerSuffixes();
    StatusMapLookups();
    SortedIsPrefixed(i);
    TrimmedLowered(Suffixes[i]);
  }

  /** The value list generated from `status.go` lines up with `StatusValues()`: same order,
      the same numbers, and (with lower-casing) the same names. */
  lemma GeneratedListMatchesStatusValues(title: string -> string, vs: seq<Value>)
    requires IsValueList("status", StatusMap, title, vs)
    ensures |vs| == |StatusValues()|
    ensures forall i :: 0 <= i < |vs| ==>
      && vs[i].index == StatusValues()[i].value
      && ToLower(TrimPrefix(vs[i].privateName, "status")) == StatusValues()[i].name
  {
    GeneratedPrivateNames(title, vs);
    forall i | 0 <= i < |vs|
      ensures vs[i].index == StatusValues()[i].value
      ensures ToLower(TrimPrefix(vs[i].privateName, "status")) == StatusValues()[i].name
    {
      assert vs[i].privateName == PrivateNames(vs)[i] == SortedPrivateNames[i];
      SortedNameMatches(i);
    }
  }

  /** The example type's output file name. */
  lemma StatusFileName()
    ensures Join(Naming.LowerWords(Naming.CamelWords("status")), "_") + "_enum.go" == "status_enum.go"
  {
    var t := "status";
    assert forall i :: 0 <= i < |t| ==> !Ascii.IsUpper(t[i]);
    Naming.FileNameOfLowerCaseType(t);
  }

  /** `New`, `-lower` and `Parse` on the example package: neither `New` nor `Parse` returns
      an error, and the generator holds the four values and the package name. */
  method ParseStatusPackage() returns (g: Generator, newErr: Option<string>, parseErr: Option<string>)
    ensures newErr == None && parseErr == None
    ensures g.typeName == "status" && g.path == "" && g.lowerCase
    ensures g.values == StatusMap && g.pkgName == "status"
  {
    var gen;
    gen, newErr := Generator.New("status", "");
    assert ValidTypeName("status");
    g := gen;
    assert g.typeName == "status" && g.values == map[] && g.path == "";
    g.SetLowerCase(true);
    assert g.typeName == "status" && g.path == "" && g.lowerCase && g.values == map[];
    var pkg := StatusPackage;
    parseErr := g.Parse(Parsed([pkg]));
    assert g.typeName == "status" && g.path == "" && g.lowerCase;
    ParsedStatusMap();
    assert "statusActive" in g.values;
  }

  /** `go run main.go -type status -lower` on the example package, end to end. */
  method GenerateStatus(title: string -> string) returns (data: TemplateData, fileName: string)
    ensures data.package == "status" && data.lowerCase
    ensures fileName == "status_enum.go"
    ensures |data.values| == |StatusValues()|
    ensures forall i :: 0 <= i < |data.values| ==>
      && data.values[i].index == StatusValues()[i].value
      && ToLower(TrimPrefix(data.values[i].privateName, "status")) == StatusValues()[i].name
  {
    var g, newErr, parseErr := ParseStatusPackage();
    data, fileName := g.Generate(title, "");
    GeneratedListMatchesStatusValues(title, data.values);
    StatusFileName();
  }
}
