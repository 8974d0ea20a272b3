/**
  The output schema: column names and their positions, derived once from the
  header keys. Nine columns are always present; the others are appended, each
  only when the header declares the key that gates it. The name-to-position map
  is built with a running field index, and the ordered column list is then
  recovered as its inverse, so that output order is insertion order.
*/
module Schema {
  import opened Wrappers

  /** The columns every row carries, in order. */
  const FixedColumns: seq<string> :=
    ["chr", "start", "end", "id", "size", "vac", "vaf", "singleton", "missingrate"]

  /** The optional columns, in the order in which they are appended. */
  const OptionalColumns: seq<string> :=
    ["svtype", "precise", "ci", "fic", "rsq", "hwepval",
     "refgq", "altgq", "rdratio", "medianrc", "refratio", "altratio"]

  /** Every column that can appear, in output order. */
  const AllColumns: seq<string> := FixedColumns + OptionalColumns

  /** The header key whose presence a column depends on; None for a fixed column. */
  function GateOf(column: string): (gate: Option<string>) {
    if column == "svtype" then Some("SVTYPE")
    else if column == "precise" then Some("IMPRECISE")
    else if column == "ci" then Some("CIPOS")
    else if column == "fic" then Some("FIC")
    else if column == "rsq" then Some("RSQ")
    else if column == "hwepval" then Some("HWEpval")
    else if column == "refgq" || column == "altgq" then Some("GQ")
    else if column == "rdratio" || column == "medianrc" then Some("RC")
    else if column == "refratio" || column == "altratio" then Some("DV")
    else None
  }

  /** A column is emitted when it has no gate or its gate key is declared. */
  predicate Enabled(column: string, keys: set<string>) {
    match GateOf(column)
    case None => true
    case Some(key) => key in keys
  }

  /** The columns of a header declaring keys: every possible column whose gate
      is satisfied, in output order. */
  function Columns(keys: set<string>): (cols: seq<string>) {
    Select(AllColumns, keys)
  }

  /** One step of the construction: names are appended when key is declared. */
  function Gate(prefix: seq<string>, key: string, names: seq<string>, keys: set<string>): (cols: seq<string>) {
    prefix + (if key in keys then names else [])
  }

  /** The columns in the order the construction appends them. */
  function AppendedColumns(keys: set<string>): (cols: seq<string>) {
    var s1 := Gate(FixedColumns, "SVTYPE", ["svtype"], keys);
    var s2 := Gate(s1, "IMPRECISE", ["precise"], keys);
    var s3 := Gate(s2, "CIPOS", ["ci"], keys);
    var s4 := Gate(s3, "FIC", ["fic"], keys);
    var s5 := Gate(s4, "RSQ", ["rsq"], keys);
    var s6 := Gate(s5, "HWEpval", ["hwepval"], keys);
    var s7 := Gate(s6, "GQ", ["refgq", "altgq"], keys);
    var s8 := Gate(s7, "RC", ["rdratio", "medianrc"], keys);
    Gate(s8, "DV", ["refratio", "altratio"], keys)
  }

  /** The enabled columns of cs, in their order in cs. */
  function Select(cs: seq<string>, keys: set<string>): (selected: seq<string>) {
    if cs == [] then [] else (if Enabled(cs[0], keys) then [cs[0]] else []) + Select(cs[1..], keys)
  }

  /** cs without the columns gated by key. */
  function Drop(cs: seq<string>, key: string): (kept: seq<string>) {
    if cs == [] then [] else (if GateOf(cs[0]) == Some(key) then [] else [cs[0]]) + Drop(cs[1..], key)
  }

  predicate Distinct(cs: seq<string>) {
    forall i, j :: 0 <= i < j < |cs| ==> cs[i] != cs[j]
  }

  /** Position of each name in cs, as cMap holds it after cs was inserted in
      order with a running field index. */
  function IndexMap(cs: seq<string>): (m: map<string, nat>) {
    if cs == [] then map[] else IndexMap(cs[..|cs| - 1])[cs[|cs| - 1] := |cs| - 1]
  }

  lemma {:induction false} SelectAppend(a: seq<string>, b: seq<string>, keys: set<string>)
    ensures Select(a + b, keys) == Select(a, keys) + Select(b, keys)
  {
    if a == [] {
      assert a + b == b;
    } else {
      var head := if Enabled(a[0], keys) then [a[0]] else [];
      assert (a + b)[0] == a[0] && (a + b)[1..] == a[1..] + b;
      SelectAppend(a[1..], b, keys);
      assert Select(a + b, keys) == head + (Select(a[1..], keys) + Select(b, keys));
    }
  }

  lemma {:induction false} SelectMembership(cs: seq<string>, keys: set<string>, c: string)
    ensures c in Select(cs, keys) <==> c in cs && Enabled(c, keys)
  {
    if cs != [] {
      SelectMembership(cs[1..], keys, c);
      assert cs == [cs[0]] + cs[1..];
    }
  }

  lemma {:induction false} SelectDistinct(cs: seq<string>, keys: set<string>)
    requires Distinct(cs)
    ensures Distinct(Select(cs, keys))
  {
    if cs != [] {
      SelectDistinct(cs[1..], keys);
      SelectMembership(cs[1..], keys, cs[0]);
      assert cs[0] !in cs[1..];
    }
  }

  lemma {:induction false} SelectWithoutKey(cs: seq<string>, keys: set<string>, key: string)
    ensures Select(cs, keys - {key}) == Drop(Select(cs, keys), key)
  {
    if cs != [] {
      SelectWithoutKey(cs[1..], keys, key);
      var rest := Select(cs[1..], keys);
      var c := cs[0];
      if Enabled(c, keys) {
        assert Select(cs, keys) == [c] + rest;
        assert ([c] + rest)[0] == c && ([c] + rest)[1..] == rest;
        assert Enabled(c, keys - {key}) <==> GateOf(c) != Some(key);
        assert Drop([c] + rest, key) == (if GateOf(c) == Some(key) then [] else [c]) + Drop(rest, key);
      } else {
        assert Select(cs, keys) == rest;
        assert !Enabled(c, keys - {key});
      }
    }
  }

  /** Selecting from a single column keeps it exactly when it is enabled. */
  lemma SelectOne(c: string, keys: set<string>)
    ensures Select([c], keys) == if Enabled(c, keys) then [c] else []
  {
    assert [c][1..] == [];
  }

  lemma AllColumnsDistinct()
    ensures Distinct(AllColumns)
  {
  }

  /** Appending the columns gate by gate yields the filtered list of every
      possible column. */
  lemma AppendedIsSelected(keys: set<string>)
    ensures AppendedColumns(keys) == Columns(keys)
  {
    var s1 := FixedColumns + ["svtype"];
    var s2 := s1 + ["precise"];
    var s3 := s2 + ["ci"];
    var s6 := s3 + ["fic"] + ["rsq"] + ["hwepval"];
    var s9 := s6 + ["refgq", "altgq"] + ["rdratio", "medianrc"] + ["refratio", "altratio"];
    assert AllColumns == s9;
    FixedSelected(keys);
    GateStep(FixedColumns, "SVTYPE", ["svtype"], keys);
    GateStep(s1, "IMPRECISE", ["precise"], keys);
    GateStep(s2, "CIPOS", ["ci"], keys);
    FourToSix(s3, keys);
    SevenToNine(s6, keys);
  }

  lemma FourToSix(s3: seq<string>, keys: set<string>)
    ensures Select(s3 + ["fic"] + ["rsq"] + ["hwepval"], keys)
            == Gate(Gate(Gate(Select(s3, keys), "FIC", ["fic"], keys), "RSQ", ["rsq"], keys), "HWEpval", ["hwepval"], keys)
  {
    GateStep(s3, "FIC", ["fic"], keys);
    GateStep(s3 + ["fic"], "RSQ", ["rsq"], keys);
    GateStep(s3 + ["fic"] + ["rsq"], "HWEpval", ["hwepval"], keys);
  }

  lemma SevenToNine(s6: seq<string>, keys: set<string>)
    ensures Select(s6 + ["refgq", "altgq"] + ["rdratio", "medianrc"] + ["refratio", "altratio"], keys)
            == Gate(Gate(Gate(Select(s6, keys), "GQ", ["refgq", "altgq"], keys), "RC", ["rdratio", "medianrc"], keys),
                    "DV", ["refratio", "altratio"], keys)
  {
    GateStep(s6, "GQ", ["refgq", "altgq"], keys);
    GateStep(s6 + ["refgq", "altgq"], "RC", ["rdratio", "medianrc"], keys);
    GateStep(s6 + ["refgq", "altgq"] + ["rdratio", "medianrc"], "DV", ["refratio", "altratio"], keys);
  }

  /** Filtering a list extended by columns that one key gates extends the
      filtered list by those columns exactly when the key is declared. */
  lemma GateStep(cs: seq<string>, key: string, names: seq<string>, keys: set<string>)
    requires 1 <= |names| <= 2
    requires forall i :: 0 <= i < |names| ==> GateOf(names[i]) == Some(key)
    ensures Select(cs + names, keys) == Gate(Select(cs, keys), key, names, keys)
  {
    SelectAppend(cs, names, keys);
    if |names| == 1 {
      assert names == [names[0]];
      SelectOne(names[0], keys);
    } else {
      assert names == [names[0], names[1]];
      SelectPair(names[0], names[1], keys);
    }
  }

  lemma SelectPair(c: string, d: string, keys: set<string>)
    requires GateOf(c) == GateOf(d)
    ensures Select([c, d], keys) == if Enabled(c, keys) then [c, d] else []
  {
    SelectAppend([c], [d], keys);
    SelectOne(c, keys);
    SelectOne(d, keys);
    assert [c, d] == [c] + [d];
  }

  lemma {:induction false} SelectUngated(cs: seq<string>, keys: set<string>)
    requires forall i :: 0 <= i < |cs| ==> GateOf(cs[i]) == None
    ensures Select(cs, keys) == cs
  {
    if cs != [] {
      SelectUngated(cs[1..], keys);
    }
  }

  lemma FixedSelected(keys: set<string>)
    ensures Select(FixedColumns, keys) == FixedColumns
  {
    SelectUngated(FixedColumns, keys);
  }

  /** The schema opens with the nine fixed columns. */
  lemma SchemaPrefix(keys: set<string>)
    ensures |Columns(keys)| >= |FixedColumns| == 9
    ensures Columns(keys)[..9] == FixedColumns
  {
    SelectAppend(FixedColumns, OptionalColumns, keys);
    FixedSelected(keys);
  }

  /** The positions of the fixed columns in every schema. */
  lemma FixedPositions(keys: set<string>)
    ensures |Columns(keys)| >= 9
    ensures Columns(keys)[0] == "chr" && Columns(keys)[1] == "start" && Columns(keys)[2] == "end"
    ensures Columns(keys)[3] == "id" && Columns(keys)[4] == "size" && Columns(keys)[5] == "vac"
    ensures Columns(keys)[6] == "vaf" && Columns(keys)[7] == "singleton" && Columns(keys)[8] == "missingrate"
  {
    SelectAppend(FixedColumns, OptionalColumns, keys);
    FixedSelected(keys);
    var cols := Columns(keys);
    assert cols == FixedColumns + Select(OptionalColumns, keys);
    assert forall j :: 0 <= j < 9 ==> cols[j] == FixedColumns[j];
  }

  /** A column is in the schema exactly when it is a known column whose gate
      key, if any, is declared. */
  lemma ColumnPresence(keys: set<string>, c: string)
    ensures c in Columns(keys) <==> c in AllColumns && Enabled(c, keys)
  {
    SelectMembership(AllColumns, keys, c);
  }

  /** No column name contains a tab. */
  lemma AllColumnsTabFree()
    ensures forall i :: 0 <= i < |AllColumns| ==> '\t' !in AllColumns[i]
  {
  }

  lemma {:induction false} SelectTabFree(cs: seq<string>, keys: set<string>)
    requires forall i :: 0 <= i < |cs| ==> '\t' !in cs[i]
    ensures forall i :: 0 <= i < |Select(cs, keys)| ==> '\t' !in Select(cs, keys)[i]
  {
    if cs != [] {
      SelectTabFree(cs[1..], keys);
    }
  }

  /** The schema's names can be written tab-separated. */
  lemma ColumnsTabFree(keys: set<string>)
    ensures forall i :: 0 <= i < |Columns(keys)| ==> '\t' !in Columns(keys)[i]
  {
    AllColumnsTabFree();
    SelectTabFree(AllColumns, keys);
  }

  /** The schema's names are distinct. */
  lemma ColumnsDistinct(keys: set<string>)
    ensures Distinct(Columns(keys))
  {
    AllColumnsDistinct();
    SelectDistinct(AllColumns, keys);
  }

  /** The paired columns are present together, exactly when their key is. */
  lemma PairsTogether(keys: set<string>)
    ensures ("refgq" in Columns(keys) <==> "GQ" in keys) && ("altgq" in Columns(keys) <==> "GQ" in keys)
    ensures ("rdratio" in Columns(keys) <==> "RC" in keys) && ("medianrc" in Columns(keys) <==> "RC" in keys)
    ensures ("refratio" in Columns(keys) <==> "DV" in keys) && ("altratio" in Columns(keys) <==> "DV" in keys)
  {
    ColumnPresence(keys, "refgq");
    ColumnPresence(keys, "altgq");
    ColumnPresence(keys, "rdratio");
    ColumnPresence(keys, "medianrc");
    ColumnPresence(keys, "refratio");
    ColumnPresence(keys, "altratio");
  }

  /** Withdrawing one key from the header removes exactly the columns it gates
      and keeps every other column in its place in the order. */
  lemma WithoutKey(keys: set<string>, key: string)
    ensures Columns(keys - {key}) == Drop(Columns(keys), key)
  {
    SelectWithoutKey(AllColumns, keys, key);
  }

  /** In a list of distinct names, IndexMap maps each name to its position and
      has no other keys. */
  lemma {:induction false} IndexMapInverts(cs: seq<string>)
    requires Distinct(cs)
    ensures IndexMap(cs).Keys == set c | c in cs
    ensures |IndexMap(cs)| == |cs|
    ensures forall i :: 0 <= i < |cs| ==> IndexMap(cs)[cs[i]] == i
  {
    if cs != [] {
      var init := cs[..|cs| - 1];
      var last := cs[|cs| - 1];
      IndexMapInverts(init);
      assert last !in init;
      assert (set c | c in cs) == (set c | c in init) + {last};
      assert last !in IndexMap(init).Keys;
      forall i | 0 <= i < |cs|
        ensures IndexMap(cs)[cs[i]] == i
      {
        if i < |cs| - 1 {
          assert cs[i] == init[i];
        }
      }
    }
  }

  /** `cMap[name] = fieldIndex++`: inserts the next column at the running index. */
  method AddColumn(cMap: map<string, nat>, fieldIndex: nat, name: string, ghost cols: seq<string>)
    returns (cMap': map<string, nat>, fieldIndex': nat)
    requires cMap == IndexMap(cols) && fieldIndex == |cols|
    ensures cMap' == IndexMap(cols + [name]) && fieldIndex' == |cols + [name]|
  {
    assert (cols + [name])[..|cols|] == cols;
    cMap' := cMap[name := fieldIndex];
    fieldIndex' := fieldIndex + 1;
  }

  /** Builds the column map from the declared header keys. */
  method BuildColumnMap(keys: set<string>) returns (cMap: map<string, nat>)
    ensures cMap == IndexMap(Columns(keys))
    ensures cMap.Keys == set c | c in Columns(keys)
    ensures forall i :: 0 <= i < |Columns(keys)| ==> cMap[Columns(keys)[i]] == i
  {
    var fieldIndex: nat := 0;
    cMap := map[];
    ghost var cols: seq<string> := [];
    cMap, fieldIndex := AddColumn(cMap, fieldIndex, "chr", cols); cols := cols + ["chr"];
    cMap, fieldIndex := AddColumn(cMap, fieldIndex, "start", cols); cols := cols + ["start"];
    cMap, fieldIndex := AddColumn(cMap, fieldIndex, "end", cols); cols := cols + ["end"];
    cMap, fieldIndex := AddColumn(cMap, fieldIndex, "id", cols); cols := cols + ["id"];
    cMap, fieldIndex := AddColumn(cMap, fieldIndex, "size", cols); cols := cols + ["size"];
    cMap, fieldIndex := AddColumn(cMap, fieldIndex, "vac", cols); cols := cols + ["vac"];
    cMap, fieldIndex := AddColumn(cMap, fieldIndex, "vaf", cols); cols := cols + ["vaf"];
    cMap, fieldIndex := AddColumn(cMap, fieldIndex, "singleton", cols); cols := cols + ["singleton"];
    cMap, fieldIndex := AddColumn(cMap, fieldIndex, "missingrate", cols); cols := cols + ["missingrate"];
    assert cols == FixedColumns;
    cMap, fieldIndex := AddGated(cMap, fieldIndex, "SVTYPE", ["svtype"], keys, cols);
    cols := Gate(cols, "SVTYPE", ["svtype"], keys);
    cMap, fieldIndex := AddGated(cMap, fieldIndex, "IMPRECISE", ["precise"], keys, cols);
    cols := Gate(cols, "IMPRECISE", ["precise"], keys);
    cMap, fieldIndex := AddGated(cMap, fieldIndex, "CIPOS", ["ci"], keys, cols);
    cols := Gate(cols, "CIPOS", ["ci"], keys);
    cMap, fieldIndex := AddGated(cMap, fieldIndex, "FIC", ["fic"], keys, cols);
    cols := Gate(cols, "FIC", ["fic"], keys);
    cMap, fieldIndex := AddGated(cMap, fieldIndex, "RSQ", ["rsq"], keys, cols);
    cols := Gate(cols, "RSQ", ["rsq"], keys);
    cMap, fieldIndex := AddGated(cMap, fieldIndex, "HWEpval", ["hwepval"], keys, cols);
    cols := Gate(cols, "HWEpval", ["hwepval"], keys);
    cMap, fieldIndex := AddGated(cMap, fieldIndex, "GQ", ["refgq", "altgq"], keys, cols);
    cols := Gate(cols, "GQ", ["refgq", "altgq"], keys);
    cMap, fieldIndex := AddGated(cMap, fieldIndex, "RC", ["rdratio", "medianrc"], keys, cols);
    cols := Gate(cols, "RC", ["rdratio", "medianrc"], keys);
    cMap, fieldIndex := AddGated(cMap, fieldIndex, "DV", ["refratio", "altratio"], keys, cols);
    cols := Gate(cols, "DV", ["refratio", "altratio"], keys);
    assert cols == AppendedColumns(keys);
    AppendedIsSelected(keys);
    ColumnsDistinct(keys);
    IndexMapInverts(cols);
  }

  /** `if (key declared) { cMap[name] = fieldIndex++; ... }` for the one or two
      columns a key gates. */
  method AddGated(cMap: map<string, nat>, fieldIndex: nat, key: string, names: seq<string>,
                  keys: set<string>, ghost cols: seq<string>)
    returns (cMap': map<string, nat>, fieldIndex': nat)
    requires 1 <= |names| <= 2
    requires cMap == IndexMap(cols) && fieldIndex == |cols|
    ensures cMap' == IndexMap(Gate(cols, key, names, keys))
    ensures fieldIndex' == |Gate(cols, key, names, keys)|
  {
    cMap', fieldIndex' := cMap, fieldIndex;
    if key in keys {
      cMap', fieldIndex' := AddColumn(cMap', fieldIndex', names[0], cols);
      if |names| == 2 {
        cMap', fieldIndex' := AddColumn(cMap', fieldIndex', names[1], cols + [names[0]]);
        assert cols + [names[0]] + [names[1]] == cols + names;
      } else {
        assert cols + [names[0]] == cols + names;
      }
    } else {
      assert cols + [] == cols;
    }
  }

  /** Fills cHeader as the inverse of cMap: each name goes to the slot its
      index names. The keys are visited in no particular order; the result
      does not depend on it. */
  method FillHeader(cMap: map<string, nat>, ghost cols: seq<string>) returns (cHeader: seq<string>)
    requires Distinct(cols) && cMap == IndexMap(cols)
    ensures |cHeader| == |cMap|
    ensures forall k :: k in cMap ==> cMap[k] < |cHeader| && cHeader[cMap[k]] == k
    ensures cHeader == cols
  {
    IndexMapInverts(cols);
    cHeader := seq(|cMap|, _ => "");
    var remaining := cMap.Keys;
    while remaining != {}
      invariant remaining <= cMap.Keys
      invariant |cHeader| == |cols|
      invariant forall i :: 0 <= i < |cols| && cols[i] !in remaining ==> cHeader[i] == cols[i]
      decreases |remaining|
    {
      var name :| name in remaining;
      assert name in cols;
      ghost var i :| 0 <= i < |cols| && cols[i] == name;
      cHeader := cHeader[cMap[name] := name];
      remaining := remaining - {name};
    }
  }
}
