/**
 * Comparison of a DB2 table with a CSV extract: column names are
 * normalised, the two column sets are split into the columns only one side
 * has and the columns both have, and a key-based comparison first checks
 * that every key column exists on both sides.
 */
module CsvDiff {
  import opened Wrappers
  import opened Text
  import opened Ordering

  /** `_normalize_colnames(cols)`: each name stripped and upper-cased, in the same order. */
  function NormalizeColnames(cols: seq<string>): (r: seq<string>)
    ensures |r| == |cols|
    ensures forall i :: 0 <= i < |cols| ==> r[i] == Upper(Strip(cols[i]))
  {
    seq(|cols|, i requires 0 <= i < |cols| => Upper(Strip(cols[i])))
  }

  /** A normalised name has no lower-case letter and no whitespace at either end. */
  lemma NormalizedName(c: string)
    ensures forall i :: 0 <= i < |Upper(Strip(c))| ==> !IsLowerLetter(Upper(Strip(c))[i])
    ensures Upper(Strip(c)) == [] ||
      (Upper(Strip(c))[0] !in Whitespace && Upper(Strip(c))[|Upper(Strip(c))| - 1] !in Whitespace)
  {
    var t := Strip(c);
    var u := Upper(t);
    if u != [] {
      assert t[0] !in Whitespace && t[|t| - 1] !in Whitespace;
      WhitespaceNotLetter(t[0]);
      WhitespaceNotLetter(t[|t| - 1]);
    }
  }

  /** No whitespace character is an ASCII letter, so upper-casing keeps whitespace apart. */
  lemma WhitespaceNotLetter(c: char)
    requires c !in Whitespace
    ensures UpperChar(c) !in Whitespace
  {
    if IsLowerLetter(c) {
      assert IsUpperLetter(UpperChar(c));
    }
  }

  /** Normalising twice is normalising once. */
  lemma NormalizeIdempotent(cols: seq<string>)
    ensures NormalizeColnames(NormalizeColnames(cols)) == NormalizeColnames(cols)
  {
    var once := NormalizeColnames(cols);
    forall i | 0 <= i < |cols|
      ensures Upper(Strip(once[i])) == once[i]
    {
      NormalizedName(cols[i]);
      StripCharsKeeps(once[i], Whitespace);
      UpperIdentity(once[i]);
    }
  }

  /** The three lists `schema_diff` returns. */
  datatype SchemaDiff = SchemaDiff(onlyInDb2: seq<string>, onlyInCsv: seq<string>, common: seq<string>)

  /** `schema_diff(db2_df, csv_df)` on the two frames' column names. */
  ghost function SchemaDiffOf(db2Cols: seq<string>, csvCols: seq<string>): SchemaDiff {
    var a := SetOf(NormalizeColnames(db2Cols));
    var b := SetOf(NormalizeColnames(csvCols));
    SchemaDiff(SortedSet(a - b), SortedSet(b - a), SortedSet(a * b))
  }

  /**
   * A column is only in DB2, only in the CSV, or common, as its normalised
   * name occurs on one side or both; the three lists are therefore disjoint
   * and together hold every normalised name.
   */
  lemma SchemaDiffPartition(db2Cols: seq<string>, csvCols: seq<string>, c: string)
    ensures var d := SchemaDiffOf(db2Cols, csvCols);
      var a := NormalizeColnames(db2Cols);
      var b := NormalizeColnames(csvCols);
      && (c in d.onlyInDb2 <==> c in a && c !in b)
      && (c in d.onlyInCsv <==> c in b && c !in a)
      && (c in d.common <==> c in a && c in b)
  {
    var a := SetOf(NormalizeColnames(db2Cols));
    var b := SetOf(NormalizeColnames(csvCols));
    var d := SchemaDiffOf(db2Cols, csvCols);
    assert c in d.onlyInDb2 <==> c in SetOf(d.onlyInDb2);
    assert c in d.onlyInCsv <==> c in SetOf(d.onlyInCsv);
    assert c in d.common <==> c in SetOf(d.common);
  }

  /** The three lists together are the union of the two column sets, and no two of them share a name. */
  lemma SchemaDiffCovers(db2Cols: seq<string>, csvCols: seq<string>)
    ensures var d := SchemaDiffOf(db2Cols, csvCols);
      && SetOf(d.onlyInDb2) + SetOf(d.onlyInCsv) + SetOf(d.common)
        == SetOf(NormalizeColnames(db2Cols)) + SetOf(NormalizeColnames(csvCols))
      && SetOf(d.onlyInDb2) * SetOf(d.onlyInCsv) == {}
      && SetOf(d.onlyInDb2) * SetOf(d.common) == {}
      && SetOf(d.onlyInCsv) * SetOf(d.common) == {}
  {
    var a := SetOf(NormalizeColnames(db2Cols));
    var b := SetOf(NormalizeColnames(csvCols));
    var d := SchemaDiffOf(db2Cols, csvCols);
    assert SetOf(d.onlyInDb2) == a - b && SetOf(d.onlyInCsv) == b - a && SetOf(d.common) == a * b;
    UnionOfParts(a, b);
  }

  lemma UnionOfParts(a: set<string>, b: set<string>)
    ensures (a - b) + (b - a) + a * b == a + b
    ensures (a - b) * (b - a) == {} && (a - b) * (a * b) == {} && (b - a) * (a * b) == {}
  {
  }

  /** Each list is in ascending order with no name twice. */
  lemma SchemaDiffSorted(db2Cols: seq<string>, csvCols: seq<string>)
    ensures var d := SchemaDiffOf(db2Cols, csvCols);
      StrictlySorted(d.onlyInDb2) && StrictlySorted(d.onlyInCsv) && StrictlySorted(d.common)
  {
  }

  /** Swapping the two sources swaps the one-sided lists and keeps the common one. */
  lemma SchemaDiffSwap(db2Cols: seq<string>, csvCols: seq<string>)
    ensures SchemaDiffOf(csvCols, db2Cols) == SchemaDiff(
      SchemaDiffOf(db2Cols, csvCols).onlyInCsv,
      SchemaDiffOf(db2Cols, csvCols).onlyInDb2,
      SchemaDiffOf(db2Cols, csvCols).common)
  {
    var a := SetOf(NormalizeColnames(db2Cols));
    var b := SetOf(NormalizeColnames(csvCols));
    assert b * a == a * b;
  }

  /** The error `data_diff_on_key` raises for a missing key column. */
  function MissingKeyError(k: string): string {
    "Key column " + k + " missing in one of the sources"
  }

  /** `[k.upper() for k in key_cols]`: key names are upper-cased but, unlike column names, not stripped. */
  function UpperKeys(keyCols: seq<string>): (r: seq<string>)
    ensures |r| == |keyCols|
    ensures forall i :: 0 <= i < |keyCols| ==> r[i] == Upper(keyCols[i])
  {
    seq(|keyCols|, i requires 0 <= i < |keyCols| => Upper(keyCols[i]))
  }

  /** A key that both normalised column lists contain. */
  predicate KeyPresent(k: string, db2Cols: seq<string>, csvCols: seq<string>) {
    k in NormalizeColnames(db2Cols) && k in NormalizeColnames(csvCols)
  }

  /** `i` is the first key that is not a column of both sources. */
  predicate FirstMissingKey(db2Cols: seq<string>, csvCols: seq<string>, keyCols: seq<string>, i: int) {
    && 0 <= i < |keyCols|
    && !KeyPresent(Upper(keyCols[i]), db2Cols, csvCols)
    && forall j :: 0 <= j < i ==> KeyPresent(Upper(keyCols[j]), db2Cols, csvCols)
  }

  /**
   * The key check at the start of `data_diff_on_key`: the upper-cased keys
   * when each is a column of both sources, else the error for the first key
   * that is not.
   */
  method CheckKeys(db2Cols: seq<string>, csvCols: seq<string>, keyCols: seq<string>)
    returns (r: Result<seq<string>, string>)
    ensures r.Ok? <==> forall i :: 0 <= i < |keyCols| ==> KeyPresent(Upper(keyCols[i]), db2Cols, csvCols)
    ensures r.Ok? ==> r.value == UpperKeys(keyCols)
    ensures r.Err? ==> exists i :: FirstMissingKey(db2Cols, csvCols, keyCols, i) && r.error == MissingKeyError(Upper(keyCols[i]))
  {
    var db2 := NormalizeColnames(db2Cols);
    var csv := NormalizeColnames(csvCols);
    var keys := UpperKeys(keyCols);
    var missing := FirstAbsent(keys, db2, csv);
    match missing
    case None =>
      return Ok(keys);
    case Some(i) =>
      assert FirstMissingKey(db2Cols, csvCols, keyCols, i);
      return Err(MissingKeyError(keys[i]));
  }

  /** The loop of the key check: the first key that one of the two column lists lacks, if any. */
  method FirstAbsent(keys: seq<string>, a: seq<string>, b: seq<string>) returns (r: Option<nat>)
    ensures r.None? <==> forall j :: 0 <= j < |keys| ==> keys[j] in a && keys[j] in b
    ensures r.Some? ==> r.value < |keys| && !(keys[r.value] in a && keys[r.value] in b)
    ensures r.Some? ==> forall j :: 0 <= j < r.value ==> keys[j] in a && keys[j] in b
  {
    var i := 0;
    while i < |keys|
      invariant 0 <= i <= |keys|
      invariant forall j :: 0 <= j < i ==> keys[j] in a && keys[j] in b
    {
      var k := keys[i];
      if k !in a || k !in b {
        return Some(i);
      }
      i := i + 1;
    }
    return None;
  }
}
