/**
 The fixed table from country names, as they appear in the CSV rows, to the
 three-letter ids of the map's region features, and its reverse lookup.
 */
module CountryCodes {
  import opened Records

  /** `country_code`, in declaration order, which is the order `Object.keys` yields. */
  const Table: seq<(string, string)> := [
    ("Brunei Darussalam", "BRN"),
    ("Malaysia", "MYS"),
    ("Thailand", "THA"),
    ("Philippines", "PHL"),
    ("Singapore", "SGP")
  ]

  /** No two entries share a code. */
  predicate CodesDistinct(entries: seq<(string, string)>)
  {
    forall i, j :: 0 <= i < j < |entries| ==> entries[i].1 != entries[j].1
  }

  /** The code listed for `name`, if any. */
  function FindCode(entries: seq<(string, string)>, name: string): (r: Option<string>)
    ensures r.Some? <==> exists i :: 0 <= i < |entries| && entries[i].0 == name
    ensures r.Some? ==> (name, r.value) in entries
  {
    if entries == [] then None
    else if entries[0].0 == name then Some(entries[0].1)
    else FindCode(entries[1..], name)
  }

  /** `Object.keys(country_code).find(key => country_code[key] === code)`:
      the first name, in table order, whose code is `code`. */
  function FindName(entries: seq<(string, string)>, code: string): (r: Option<string>)
    ensures r.Some? <==> exists i :: 0 <= i < |entries| && entries[i].1 == code
    ensures r.Some? ==> exists i :: 0 <= i < |entries| && entries[i] == (r.value, code)
                                    && forall j :: 0 <= j < i ==> entries[j].1 != code
  {
    if entries == [] then None
    else if entries[0].1 == code then Some(entries[0].0)
    else
      var r := FindName(entries[1..], code);
      assert r.Some? ==> exists i :: 1 <= i < |entries| && entries[i] == (r.value, code)
                                     && forall j :: 0 <= j < i ==> entries[j].1 != code by {
        if r.Some? {
          var i :| 0 <= i < |entries| - 1 && entries[1..][i] == (r.value, code)
                   && forall j :: 0 <= j < i ==> entries[1..][j].1 != code;
          assert forall j :: 0 <= j < i + 1 ==> entries[j].1 != code by {
            forall j | 0 <= j < i + 1 ensures entries[j].1 != code {
              if j > 0 { assert entries[j] == entries[1..][j - 1]; }
            }
          }
        }
      }
      r
  }

  /** `country_code[name]`: no code for a country outside the table. */
  function CodeOf(name: string): (r: Option<string>)
    ensures r.Some? <==> exists i :: 0 <= i < |Table| && Table[i].0 == name
    ensures r.Some? ==> (name, r.value) in Table
  {
    FindCode(Table, name)
  }

  /** `getCountryByCode(code)`: undefined for a code that is not in the table. */
  function GetCountryByCode(code: string): (r: Option<string>)
    ensures r.None? <==> forall i :: 0 <= i < |Table| ==> Table[i].1 != code
    ensures r.Some? ==> (r.value, code) in Table
  {
    FindName(Table, code)
  }

  /** With distinct codes, the reverse search finds the entry a code came from. */
  lemma {:induction false} FindNameOfCode(entries: seq<(string, string)>, i: nat)
    requires CodesDistinct(entries)
    requires i < |entries|
    ensures FindName(entries, entries[i].1) == Some(entries[i].0)
  {
    if i > 0 {
      assert entries[0].1 != entries[i].1;
      assert entries[1..][i - 1] == entries[i];
      FindNameOfCode(entries[1..], i - 1);
    }
  }

  /** The five codes of the table are distinct, so reverse lookup undoes lookup. */
  lemma ReverseLookupRoundTrip(name: string)
    requires CodeOf(name).Some?
    ensures GetCountryByCode(CodeOf(name).value) == Some(name)
  {
    assert CodesDistinct(Table);
    var i :| 0 <= i < |Table| && Table[i] == (name, CodeOf(name).value);
    FindNameOfCode(Table, i);
  }

  /** Distinct countries of the table never share a code. */
  lemma CodeOfInjective(a: string, b: string)
    requires CodeOf(a).Some? && CodeOf(a) == CodeOf(b)
    ensures a == b
  {
    var code := CodeOf(a).value;
    assert (a, code) in Table && (b, code) in Table;
  }

  /** A code outside the table names no country. */
  lemma UnknownCode(code: string)
    requires code !in {"BRN", "MYS", "THA", "PHL", "SGP"}
    ensures GetCountryByCode(code) == None
  {
  }
}
