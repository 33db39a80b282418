/** The generator object: it validates the type name, walks the `const` blocks of the parsed
    packages collecting `name -> counter` pairs, and turns them into the ordered value list
    and the other data the template is rendered from. */
module Generator {
  import opened Wrappers
  import opened Ascii
  import opened GoStrings
  import opened Naming
  import opened Collector

  /** One enum value as handed to the template. */
  datatype Value = Value(privateName: string, publicName: string, name: string, index: int)

  /** What parsing the source directory produced: the packages, or the parser's error. */
  datatype Source = Parsed(pkgs: seq<Package>) | ParseFailed(reason: string)

  /** The data the template is executed with. */
  datatype TemplateData = TemplateData(typeName: string, values: seq<Value>, package: string, lowerCase: bool)

  /** A type name is accepted when it is non-empty and starts with a lower-case letter. */
  predicate ValidTypeName(typeName: string) {
    typeName != "" && IsLower(typeName[0])
  }

  function PrivateNames(vs: seq<Value>): (r: seq<string>)
    ensures |r| == |vs| && forall i :: 0 <= i < |vs| ==> r[i] == vs[i].privateName
  {
    seq(|vs|, i requires 0 <= i < |vs| => vs[i].privateName)
  }

  /** The value list `Generate` must produce from `values`: one element per map entry, strictly
      ascending by private name, each carrying the map's value and the derived names. */
  ghost predicate IsValueList(typeName: string, values: map<string, int>, title: string -> string, vs: seq<Value>) {
    && |vs| == |values|
    && StrictlyAscending(PrivateNames(vs))
    && Elems(PrivateNames(vs)) == values.Keys
    && forall i :: 0 <= i < |vs| ==>
         && vs[i].privateName in values
         && vs[i].index == values[vs[i].privateName]
         && vs[i].publicName == title(typeName) + TrimPrefix(vs[i].privateName, typeName)
         && vs[i].name == title(TrimPrefix(vs[i].privateName, typeName))
  }

  /** The value list does not depend on the order in which the map is traversed: it is
      determined by the map. */
  lemma ValueListUnique(typeName: string, values: map<string, int>, title: string -> string, vs: seq<Value>, ws: seq<Value>)
    requires IsValueList(typeName, values, title, vs) && IsValueList(typeName, values, title, ws)
    ensures vs == ws
  {
    AscendingUnique(PrivateNames(vs), PrivateNames(ws));
    assert |vs| == |ws|;
    forall i | 0 <= i < |vs| ensures vs[i] == ws[i] {
      assert vs[i].privateName == PrivateNames(vs)[i] == PrivateNames(ws)[i] == ws[i].privateName;
    }
  }

  /** `for name := range values { names = append(names, name) }`: the keys, each once, in
      the (unspecified) order the map yields them. */
  method MapKeys(values: map<string, int>) returns (names: seq<string>)
    ensures Elems(names) == values.Keys && |names| == |values|
    ensures forall i, j :: 0 <= i < j < |names| ==> names[i] != names[j]
  {
    names := [];
    var remaining := values.Keys;
    while remaining != {}
      invariant Elems(names) + remaining == values.Keys && Elems(names) !! remaining
      invariant forall i, j :: 0 <= i < j < |names| ==> names[i] != names[j]
      invariant |names| + |remaining| == |values.Keys|
      decreases |remaining|
    {
      var k :| k in remaining;
      assert k !in Elems(names);
      names := names + [k];
      remaining := remaining - {k};
    }
  }

  /** The value-list construction of `Generate`: names are taken from the map in whatever order
      it yields them, sorted, and each is turned into a `Value`. */
  method BuildValues(typeName: string, values: map<string, int>, title: string -> string) returns (vs: seq<Value>)
    ensures IsValueList(typeName, values, title, vs)
  {
    var names := MapKeys(values);
    var sorted := SortStrings(names);
    vs := [];
    for i := 0 to |sorted|
      invariant |vs| == i
      invariant forall j :: 0 <= j < i ==>
        && vs[j].privateName == sorted[j]
        && vs[j].index == values[sorted[j]]
        && vs[j].publicName == title(typeName) + TrimPrefix(sorted[j], typeName)
        && vs[j].name == title(TrimPrefix(sorted[j], typeName))
    {
      var privateName := sorted[i];
      assert privateName in Elems(sorted);
      var nameWithoutPrefix := TrimPrefix(privateName, typeName);
      var publicName := title(typeName) + nameWithoutPrefix;
      vs := vs + [Value(privateName, publicName, title(nameWithoutPrefix), values[privateName])];
    }
    assert PrivateNames(vs) == sorted;
  }

  class Generator {
    var typeName: string                 // the private type name, e.g. "status"
    var path: string                     // the output directory
    var values: map<string, int>         // the const values found
    var pkgName: string                  // the package name of the source
    var lowerCase: bool                  // lower-case marshalled names

    constructor Init(typeName: string, path: string)
      ensures this.typeName == typeName && this.path == path
      ensures values == map[] && pkgName == "" && !lowerCase
    {
      this.typeName := typeName;
      this.path := path;
      values := map[];
      pkgName := "";
      lowerCase := false;
    }

    /** `New`: rejects an empty type name and one whose first letter is not lower case;
        otherwise a generator with no values yet. */
    static method New(typeName: string, path: string) returns (g: Generator?, err: Option<string>)
      ensures typeName == "" ==> g == null && err == Some("type name is required")
      ensures typeName != "" && !IsLower(typeName[0]) ==>
        g == null && err == Some("first letter must be lowercase (private)")
      ensures ValidTypeName(typeName) ==>
        && err == None && g != null && fresh(g)
        && g.typeName == typeName && g.path == path
        && g.values == map[] && g.pkgName == "" && !g.lowerCase
    {
      if typeName == "" {
        return null, Some("type name is required");
      }
      if !IsLower(typeName[0]) {
        return null, Some("first letter must be lowercase (private)");
      }
      g := new Generator.Init(typeName, path);
      err := None;
    }

    /** `SetLowerCase`. */
    method SetLowerCase(lower: bool)
      modifies this`lowerCase
      ensures lowerCase == lower
    {
      lowerCase := lower;
    }

    /** The inner loop of `parseConstBlock` over the names of one counting spec: every name
        but "_" receives the counter, which then advances. */
    method RecordNames(names: seq<string>, iotaVal: int) returns (next: int)
      modifies this`values
      ensures values == AssignFrom(old(values), Recorded(names), iotaVal)
      ensures next == iotaVal + |Recorded(names)|
    {
      next := iotaVal;
      for j := 0 to |names|
        invariant values == AssignFrom(old(values), Recorded(names[..j]), iotaVal)
        invariant next == iotaVal + |Recorded(names[..j])|
      {
        RecordedStep(names, j);
        if names[j] != Placeholder {
          AssignFromStep(old(values), Recorded(names[..j]), names[j], iotaVal);
          values := values[names[j] := next];
          next := next + 1;
        } else {
          assert Recorded(names[..j + 1]) == Recorded(names[..j]);
        }
      }
      assert names[..|names|] == names;
    }

    /** The `parseConstBlock` closure: a counter starting at 0 per block, skipping specs that
        are not value specs, have no names or whose first name lacks the type prefix. */
    method ParseConstBlock(decl: Block)
      modifies this`values
      ensures values == CollectBlock(typeName, old(values), decl)
    {
      var iotaVal := 0;
      for i := 0 to |decl|
        invariant values == AssignFrom(old(values), BlockEntries(typeName, decl[..i]), 0)
        invariant iotaVal == |BlockEntries(typeName, decl[..i])|
      {
        BlockEntriesStep(typeName, decl, i);
        ghost var done := BlockEntries(typeName, decl[..i]);
        var spec := decl[i];
        if spec.ValueSpec? && |spec.names| != 0 && HasPrefix(spec.names[0], typeName) {
          iotaVal := RecordNames(spec.names, iotaVal);
          AssignFromAppend(old(values), done, Recorded(spec.names), 0);
        } else {
          assert done + SpecEntries(typeName, spec) == done;
        }
      }
      assert decl[..|decl|] == decl;
    }

    /** `parseFile`: every `const` block of the file, in inspection order. */
    method ParseFile(file: File)
      modifies this`values
      ensures values == CollectBlocks(typeName, old(values), file)
    {
      for i := 0 to |file|
        invariant values == CollectBlocks(typeName, old(values), file[..i])
      {
        CollectBlocksStep(typeName, old(values), file, i);
        ParseConstBlock(file[i]);
      }
      assert file[..|file|] == file;
    }

    /** The loop of `Parse` over the files of one package. */
    method ParseFiles(files: seq<File>)
      modifies this`values
      ensures values == CollectBlocks(typeName, old(values), FileBlocks(files))
    {
      assert FileBlocks(files[..0]) == [];
      for f := 0 to |files|
        invariant values == CollectBlocks(typeName, old(values), FileBlocks(files[..f]))
      {
        assert files[..f + 1][..f] == files[..f];
        ParseFile(files[f]);
        CollectBlocksAppend(typeName, old(values), FileBlocks(files[..f]), files[f]);
      }
      assert files[..|files|] == files;
    }

    /** `Parse`: walks every file of every package (recording the package name as it goes)
        and fails when no value was found. */
    method Parse(src: Source) returns (err: Option<string>)
      modifies this`values, this`pkgName
      ensures src.ParseFailed? ==>
        err == Some("failed to parse directory: " + src.reason) && unchanged(this)
      ensures src.Parsed? ==> values == CollectBlocks(typeName, old(values), AllBlocks(src.pkgs))
      ensures src.Parsed? ==> pkgName == if src.pkgs == [] then old(pkgName) else src.pkgs[|src.pkgs| - 1].name
      ensures src.Parsed? ==>
        err == if |values| == 0 then Some("no const values found for type " + typeName) else None
    {
      if src.ParseFailed? {
        return Some("failed to parse directory: " + src.reason);
      }
      var pkgs := src.pkgs;
      for p := 0 to |pkgs|
        invariant values == CollectBlocks(typeName, old(values), AllBlocks(pkgs[..p]))
        invariant pkgName == if p == 0 then old(pkgName) else pkgs[p - 1].name
      {
        assert pkgs[..p + 1][..p] == pkgs[..p];
        pkgName := pkgs[p].name;
        ParseFiles(pkgs[p].files);
        CollectBlocksAppend(typeName, old(values), AllBlocks(pkgs[..p]), FileBlocks(pkgs[p].files));
      }
      assert pkgs[..|pkgs|] == pkgs;
      if |values| == 0 {
        return Some("no const values found for type " + typeName);
      }
      return None;
    }

    /** The computational part of `Generate`. `title` is the title caser; `baseDir` is the base
        name of `path`. Returns the template data and the output file name. */
    method Generate(title: string -> string, baseDir: string) returns (data: TemplateData, fileName: string)
      ensures data.typeName == typeName && data.lowerCase == lowerCase
      ensures IsValueList(typeName, values, title, data.values)
      ensures data.package == PackageName(pkgName, path, baseDir)
      ensures fileName == Join(LowerWords(CamelWords(typeName)), "_") + "_enum.go"
    {
      var vs := BuildValues(typeName, values, title);
      var pkg := pkgName;
      if path != "" {
        var ok := IsValidGoIdentifier(baseDir);
        if !ok {
          pkg := "enum";
        } else {
          pkg := baseDir;
        }
      }
      data := TemplateData(typeName, vs, pkg, lowerCase);
      fileName := FileNameForType(typeName);
    }
  }
}
