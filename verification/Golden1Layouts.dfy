/** Conforming does not depend on where a file keeps its columns. */
module Golden1Layouts {
  import opened Prelude
  import opened Calendar
  import opened Golden1Schema
  import opened Golden1File

  /** Every column of an `n`-column file exactly once. */
  ghost predicate IsPermutation(perm: seq<nat>, n: nat) {
    && |perm| == n
    && (forall k | 0 <= k < n :: perm[k] < n)
    && NoRepeats(perm)
    && (forall v: nat | v < n :: v in perm)
  }

  function Permuted(f: File, perm: seq<nat>): (p: File)
    requires |f.columns| == |f.header| == |perm| && forall k | 0 <= k < |perm| :: perm[k] < |f.header|
  {
    var n := |perm|;
    File(
      seq(n, k requires 0 <= k < n => f.header[perm[k]]),
      seq(n, k requires 0 <= k < n => f.columns[perm[k]]),
      f.count)
  }

  lemma {:induction false} PermutingKeepsMatchKey(fold: string -> string, f: File, perm: seq<nat>)
    requires Rectangular(f) && IsPermutation(perm, |f.header|)
    ensures MatchKey(fold, Permuted(f, perm).header) == MatchKey(fold, f.header)
  {
    var p := Permuted(f, perm);
    forall name | name in f.header ensures name in p.header {
      var v := Position(f.header, name);
      assert v in perm;
      assert p.header[Position(perm, v)] == name;
    }
    forall name | name in p.header ensures name in f.header {
      assert name == f.header[perm[Position(p.header, name)]];
    }
    assert forall name :: name in p.header <==> name in f.header;
    assert MatchKey(fold, p.header).1 == MatchKey(fold, f.header).1;
  }

  lemma {:induction false} PermutingKeepsDuplicates(fold: string -> string, f: File, perm: seq<nat>)
    requires Rectangular(f) && IsPermutation(perm, |f.header|)
    ensures HasDuplicates(fold, Permuted(f, perm).header) == HasDuplicates(fold, f.header)
  {
    var p := Permuted(f, perm);
    if HasDuplicates(fold, f.header) {
      var i, j :| 0 <= i < j < |f.header| && fold(f.header[i]) == fold(f.header[j]);
      assert i in perm && j in perm;
      var a, b := Position(perm, i), Position(perm, j);
      assert fold(p.header[if a < b then a else b]) == fold(p.header[if a < b then b else a]);
    }
    if HasDuplicates(fold, p.header) {
      var a, b :| 0 <= a < b < |p.header| && fold(p.header[a]) == fold(p.header[b]);
      var i, j := perm[a], perm[b];
      assert i != j;
      assert fold(f.header[if i < j then i else j]) == fold(f.header[if i < j then j else i]);
    }
  }

  lemma {:induction false} PermutingKeepsSchema(fold: string -> string, f: File, perm: seq<nat>)
    requires Rectangular(f) && IsPermutation(perm, |f.header|)
    ensures DetectSchema(fold, Permuted(f, perm).header) == DetectSchema(fold, f.header)
  {
    var p := Permuted(f, perm);
    PermutingKeepsMatchKey(fold, f, perm);
    PermutingKeepsDuplicates(fold, f, perm);
    FilterCongruence((s: Schema) => MatchKey(fold, s.header) == MatchKey(fold, f.header),
      (s: Schema) => MatchKey(fold, s.header) == MatchKey(fold, p.header), SCHEMAS);
  }

  lemma {:induction false} PermutingKeepsColumn(fold: string -> string, f: File, perm: seq<nat>, name: string)
    requires Rectangular(f) && IsPermutation(perm, |f.header|) && Rectangular(Permuted(f, perm))
    requires DetectSchema(fold, f.header).Ok?
    requires From(name) in DetectSchema(fold, f.header).value.sources.Values
    ensures ColumnNamed(fold, Permuted(f, perm), name) == ColumnNamed(fold, f, name)
  {
    var p := Permuted(f, perm);
    PermutingKeepsSchema(fold, f, perm);
    DetectedColumnIsUnique(fold, f.header, name);
    DetectedColumnIsUnique(fold, p.header, name);
    var i, k := ColumnIndex(fold, f.header, name), ColumnIndex(fold, p.header, name);
    assert fold(f.header[perm[k]]) == fold(name);
    assert perm[k] == i;
  }

  /** A file reads the same wherever it keeps its columns, refusals included. */
  lemma {:induction false} PermutingColumnsChangesNothing(
    fold: string -> string, parse: (string, Cell) -> Option<Date>, f: File, perm: seq<nat>, account: string)
    requires Rectangular(f) && IsPermutation(perm, |f.header|)
    ensures Rectangular(Permuted(f, perm))
    ensures Normalized(fold, parse, Permuted(f, perm), account) == Normalized(fold, parse, f, account)
  {
    var p := Permuted(f, perm);
    PermutingKeepsSchema(fold, f, perm);
    var spec := DetectSchema(fold, f.header);
    if spec.Ok? {
      DetectedIsDeclared(fold, f.header);
      forall c: LegacyColumn
        ensures SourceColumn(fold, p, spec.value.sources[c]) == SourceColumn(fold, f, spec.value.sources[c])
      {
        var source := spec.value.sources[c];
        if source.From? {
          assert source in spec.value.sources.Values;
          PermutingKeepsColumn(fold, f, perm, source.name);
        }
      }
      SameColumnsSameFrame(fold, p, f, spec.value);
    }
  }

  lemma {:induction false} SameColumnsSameFrame(fold: string -> string, p: File, f: File, spec: Schema)
    requires Rectangular(p) && Rectangular(f) && WellDeclared(spec) && p.count == f.count
    requires forall c: LegacyColumn :: SourceColumn(fold, p, spec.sources[c]) == SourceColumn(fold, f, spec.sources[c])
    ensures LegacyColumns(fold, p, spec) == LegacyColumns(fold, f, spec)
  {
    var one, two := LegacyColumns(fold, p, spec), LegacyColumns(fold, f, spec);
    if one.Ok? && two.Ok? {
      assert one.value == two.value;
    }
  }
}
