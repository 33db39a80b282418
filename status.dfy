/** The API generated for the `status` type: parsing and printing by name, text and SQL
    (un)marshalling through a pointer receiver, the ordered tables and the iterator.
    Go's `[]byte` travels here as the string it converts to and from. */
module StatusEnum {
  import opened Wrappers
  import opened GoStrings

  /** The exported type: a name and the value of the source constant. */
  datatype Status = Status(name: string, value: int)

  /** `Status{}`, the zero value. */
  const Zero: Status := Status("", 0)

  const StatusActive: Status := Status("active", 1)
  const StatusBlocked: Status := Status("blocked", 3)
  const StatusInactive: Status := Status("inactive", 2)
  const StatusUnknown: Status := Status("unknown", 0)

  /** All values, in the alphabetical order of their names. */
  function StatusValues(): seq<Status> {
    [StatusActive, StatusBlocked, StatusInactive, StatusUnknown]
  }

  /** All names, in the same order. */
  function StatusNames(): seq<string> {
    ["active", "blocked", "inactive", "unknown"]
  }

  /** `ParseStatus`: an exact, case-sensitive match on the names; anything else gives the
      zero value and an error. */
  function ParseStatus(v: string): (r: (Status, Option<string>))
    ensures r.1 == None <==> v in StatusNames()
    ensures r.1 == None ==> r.0 in StatusValues() && r.0.name == v
    ensures r.1 != None ==> r.0 == Zero && r.1 == Some("invalid status: " + v)
  {
    if v == "active" then (StatusActive, None)
    else if v == "blocked" then (StatusBlocked, None)
    else if v == "inactive" then (StatusInactive, None)
    else if v == "unknown" then (StatusUnknown, None)
    else (Zero, Some("invalid status: " + v))
  }

  /** `String`: the name, which parses back to the same value. */
  function String(e: Status): (r: string)
    ensures e in StatusValues() ==> ParseStatus(r) == (e, None)
  {
    e.name
  }

  /** `MarshalText`: never fails, and what it writes unmarshals to the same value. */
  function MarshalText(e: Status): (r: (string, Option<string>))
    ensures r.1 == None
    ensures e in StatusValues() ==> ParseStatus(r.0) == (e, None)
  {
    (e.name, None)
  }

  /** `Value` of `driver.Valuer`: the name. */
  function DriverValue(e: Status): (r: (string, Option<string>))
    ensures r == (String(e), None)
  {
    (e.name, None)
  }

  /** The outcome of `MustStatus`: a value, or the panic it raises. */
  datatype Must = Returned(status: Status) | Panicked(err: string)

  /** `MustStatus`: `ParseStatus`, panicking on its error. */
  function MustStatus(v: string): (r: Must)
    ensures r.Returned? <==> v in StatusNames()
    ensures r.Returned? ==> r.status in StatusValues() && r.status.name == v
    ensures r.Panicked? ==> r.err == "invalid status: " + v
  {
    var (s, err) := ParseStatus(v);
    if err.Some? then Panicked(err.value) else Returned(s)
  }

  /** What `Scan` may be handed: nil, a string, bytes, or any other value (kept as its `%v`
      rendering). */
  datatype ScanSource = Nil | Str(s: string) | Bytes(b: string) | Other(rendered: string)

  /** A `*Status` receiver. */
  class StatusVar {
    var e: Status

    constructor (init: Status)
      ensures e == init
    {
      e := init;
    }

    /** `UnmarshalText`: always assigns the receiver, the zero value on an unknown name. */
    method UnmarshalText(text: string) returns (err: Option<string>)
      modifies this
      ensures err == None <==> text in StatusNames()
      ensures err == None ==> e in StatusValues() && e.name == text
      ensures err != None ==> e == Zero && err == Some("invalid status: " + text)
    {
      var parsed;
      parsed, err := ParseStatus(text).0, ParseStatus(text).1;
      e := parsed;
    }

    /** `Scan`: nil gives the first value; a string or bytes is parsed and assigned only on
        success; anything else is refused. The receiver is unchanged on every error. */
    method Scan(value: ScanSource) returns (err: Option<string>)
      modifies this
      ensures value.Nil? ==> e == StatusValues()[0] && err == None
      ensures value.Other? ==> e == old(e) && err == Some("invalid status value: " + value.rendered)
      ensures value.Str? || value.Bytes? ==>
        var text := if value.Str? then value.s else value.b;
        if text in StatusNames() then err == None && e in StatusValues() && e.name == text
        else err == Some("invalid status: " + text) && e == old(e)
    {
      if value.Nil? {
        e := StatusValues()[0];
        return None;
      }
      var str: string;
      if value.Str? {
        str := value.s;
      } else if value.Bytes? {
        str := value.b;
      } else {
        return Some("invalid status value: " + value.rendered);
      }
      var (val, perr) := ParseStatus(str);
      if perr.Some? {
        return perr;
      }
      e := val;
      return None;
    }
  }

  /** `StatusIter` run with a `yield` callback `consume`. The callback may keep state, so it is given
      the values it was called with before. Returns the values it was called with. */
  method StatusIter(consume: (seq<Status>, Status) -> bool) returns (yielded: seq<Status>)
    ensures |yielded| <= |StatusValues()| && yielded == StatusValues()[..|yielded|]
    ensures forall k :: 0 <= k < |yielded| - 1 ==> consume(yielded[..k], yielded[k])
    ensures |yielded| < |StatusValues()| ==>
      |yielded| > 0 && !consume(yielded[..|yielded| - 1], yielded[|yielded| - 1])
  {
    yielded := [];
    var vals := StatusValues();
    for i := 0 to |vals|
      invariant yielded == vals[..i]
      invariant forall k :: 0 <= k < i ==> consume(vals[..k], vals[k])
    {
      yielded := yielded + [vals[i]];
      if !consume(vals[..i], vals[i]) {
        break;
      }
    }
    forall k | 0 <= k < |yielded| - 1 ensures consume(yielded[..k], yielded[k]) {
      assert yielded[..k] == vals[..k];
    }
  }

  /** A consumer that never stops sees every value, in order. */
  method CollectAll() returns (collected: seq<Status>)
    ensures collected == StatusValues()
  {
    var always := (seen: seq<Status>, s: Status) => true;
    collected := StatusIter(always);
  }

  /** A consumer that stops after two values, as in the package's iterator test, sees the first two. */
  method FirstTwo() returns (collected: seq<Status>)
    ensures collected == StatusValues()[..2]
  {
    var stopAtTwo := (seen: seq<Status>, s: Status) => |seen| + 1 < 2;
    collected := StatusIter(stopAtTwo);
    assert |collected| >= 2;
    ghost var secondContinues := stopAtTwo(collected[..1], collected[1]);
  }

  /** `UnmarshalText` of what `MarshalText` wrote gives back the value, with no error. */
  method TextRoundTrip(e: Status) returns (decoded: Status, err: Option<string>)
    requires e in StatusValues()
    ensures err == None && decoded == e
  {
    var (text, _) := MarshalText(e);
    var v := new StatusVar(Zero);
    err := v.UnmarshalText(text);
    decoded := v.e;
  }

  /** The two tables agree position by position. */
  lemma NamesMatchValues()
    ensures |StatusNames()| == |StatusValues()|
    ensures forall i :: 0 <= i < |StatusValues()| ==> StatusNames()[i] == String(StatusValues()[i])
  {
  }

  /** The four constants carry the values 0 to 3, each once. */
  lemma ValuesDistinct()
    ensures forall i, j :: 0 <= i < j < |StatusValues()| ==> StatusValues()[i].value != StatusValues()[j].value
    ensures forall i :: 0 <= i < |StatusValues()| ==> 0 <= StatusValues()[i].value <= 3
  {
  }

  /** The tables are alphabetical, so `StatusValues()[0]` (what `Scan(nil)` gives) is
      `StatusActive`. */
  lemma TablesAlphabetical()
    ensures StrictlyAscending(StatusNames())
    ensures StatusValues()[0] == StatusActive
  {
    var ns := StatusNames();
    assert Less(ns[0], ns[1]) && Less(ns[1], ns[2]) && Less(ns[2], ns[3]);
    LessTransitive(ns[0], ns[1], ns[2]);
    LessTransitive(ns[0], ns[2], ns[3]);
    LessTransitive(ns[1], ns[2], ns[3]);
  }
}
