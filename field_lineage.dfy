/**
 * The field lineage classifier of `field_lineage.py`: copybook chunks are
 * parsed into a field table, and the program chunks of the session sort the
 * declared field names into `input`, `derived_or_updated`, `static` and
 * `unused` buckets.
 *
 * As in the CRUD scan, regular-expression matches are inputs given in match
 * order; the two shapes that matter, the words of `_wordset` and the SQL
 * host variables, are scanned here character by character.
 */
module FieldLineage {
  import opened Wrappers
  import opened Text
  import opened Ordering

  // ----- Data -----

  /** One `RE_FIELD` match: level digits, name, and the optional PIC and VALUE groups. */
  datatype FieldMatch = FieldMatch(level: string, name: string, pic: Option<string>, value: Option<string>)

  /** `{"level", "pic", "value", "static"}` for one declared field. */
  datatype FieldMeta = FieldMeta(level: nat, pic: string, value: string, isStatic: bool)

  /** The field table of copybook text: field name -> meta. */
  type Fields = map<string, FieldMeta>

  /** What the two copybook patterns found in one text: the first `RE_RECORD01` match and every `RE_FIELD` match. */
  datatype CopybookMatches = CopybookMatches(record01: Option<string>, fields: seq<FieldMatch>)

  /**
   * One `EXEC SQL ... END-EXEC.` block of the upper-cased content: whether
   * `INSERT`, `UPDATE`, `SELECT` occur as words, the group of the first
   * `RE_SQL_SET` and `RE_SQL_WHERE` match, the group of every
   * `RE_SQL_INTO` match, and the block text itself.
   */
  datatype HostBlock = HostBlock(
    hasInsert: bool, hasUpdate: bool, hasSelect: bool,
    setClause: Option<string>, intoClauses: seq<string>, whereClause: Option<string>,
    text: string)

  /** What the program patterns found in the upper-cased content of one chunk, in match order. */
  datatype ProgramMatches = ProgramMatches(
    ifConditions: seq<string>,     // RE_IF group 1
    moves: seq<(string, string)>,  // RE_MOVE groups 1 and 2
    computes: seq<string>,         // RE_COMPUTE
    adds: seq<string>,             // RE_ADD
    subtracts: seq<string>,        // RE_SUB
    multiplies: seq<string>,       // RE_MULT
    divides: seq<string>,          // RE_DIV
    sqlBlocks: seq<HostBlock>,     // EXEC SQL blocks
    writes: seq<string>,           // RE_WRITE
    rewrites: seq<string>)         // RE_REWRITE

  /** One stored chunk row with what both pattern families found in its content. */
  datatype FieldRow = FieldRow(filename: string, content: string, copybook: CopybookMatches, program: ProgramMatches)

  /** The `totals` object of the result. */
  datatype Totals = Totals(fields: nat, input: nat, derivedOrUpdated: nat, statics: nat, unused: nat)

  /** The result of `analyze_fields`. */
  datatype FieldReport =
    | NoCopybook(hint: string)
    | Report(
        copybookHint: string,
        recordNames: seq<string>,
        totals: Totals,
        input: seq<string>,
        derivedOrUpdated: seq<string>,
        statics: seq<string>,
        unused: seq<string>,
        fieldMeta: Fields)

  // ----- _wordset -----

  /** A character of the class `[A-Z0-9\-]`. */
  predicate IsNameChar(c: char) {
    IsUpperLetter(c) || IsDigit(c) || c == '-'
  }

  /** `\b` at index `q` of `s` (ASCII word characters). */
  predicate Boundary(s: string, q: nat)
    requires q <= |s|
  {
    (q > 0 && IsWordChar(s[q - 1])) != (q < |s| && IsWordChar(s[q]))
  }

  /** A word `_wordset` can report: `[A-Z][A-Z0-9\-]+`. */
  predicate IsWordShape(w: string) {
    |w| >= 2 && IsUpperLetter(w[0]) && forall i :: 1 <= i < |w| ==> IsNameChar(w[i])
  }

  /** How many characters from index `p` on are of the class `[A-Z0-9\-]`. */
  function NameRun(s: string, p: nat): (n: nat)
    requires p <= |s|
    ensures p + n <= |s|
    ensures forall i :: p <= i < p + n ==> IsNameChar(s[i])
    ensures p + n == |s| || !IsNameChar(s[p + n])
    decreases |s| - p
  {
    if p == |s| || !IsNameChar(s[p]) then 0 else 1 + NameRun(s, p + 1)
  }

  /** The longest end `q`, with `p + 2 <= q <= top`, at which `\b` holds: the greedy run gives back characters until the final `\b` matches. */
  function BackOff(s: string, p: nat, top: nat): (q: Option<nat>)
    requires top <= |s|
    ensures q.Some? ==> p + 2 <= q.value <= top && Boundary(s, q.value)
    ensures q.None? ==> forall j :: p + 2 <= j <= top ==> !Boundary(s, j)
    decreases top
  {
    if top < p + 2 then None
    else if Boundary(s, top) then Some(top)
    else BackOff(s, p, top - 1)
  }

  /** Where a match of `\b[A-Z][A-Z0-9\-]+\b` that starts at `p` ends, if one does. */
  function WordAt(s: string, p: nat): (q: Option<nat>)
    requires p <= |s|
    ensures q.Some? ==> p + 2 <= q.value <= |s| && IsWordShape(s[p..q.value]) && Boundary(s, p) && Boundary(s, q.value)
  {
    if p < |s| && Boundary(s, p) && IsUpperLetter(s[p]) then
      var q := BackOff(s, p, p + 1 + NameRun(s, p + 1));
      if q.Some? then
        assert forall i :: 1 <= i < q.value - p ==> s[p..q.value][i] == s[p + i];
        q
      else None
    else None
  }

  /** The words `re.findall` reports scanning `s` from index `p`: after a match the scan resumes at its end. */
  function WordsFrom(s: string, p: nat): (r: set<string>)
    requires p <= |s|
    ensures forall w :: w in r ==> IsWordShape(w)
    decreases |s| - p
  {
    if p == |s| then {}
    else
      match WordAt(s, p)
      case Some(q) => {s[p..q]} + WordsFrom(s, q)
      case None => WordsFrom(s, p + 1)
  }

  /** `w` stands in `s` from some index with `\b` on both sides. */
  predicate WordOccurs(s: string, w: string) {
    exists q: nat :: q + |w| <= |s| && s[q..q + |w|] == w && Boundary(s, q) && Boundary(s, q + |w|)
  }

  /** `_wordset(s)`: the set of words of `s.upper()` shaped `[A-Z][A-Z0-9\-]+`. */
  function Wordset(s: string): (r: set<string>)
    ensures forall w :: w in r ==> IsWordShape(w) && WordOccurs(Upper(s), w)
  {
    WordsFromSound(Upper(s), 0);
    WordsFrom(Upper(s), 0)
  }

  /** Every word the scan collects is a `\b`-bounded stretch of the text. */
  lemma {:induction false} WordsFromSound(s: string, p: nat)
    requires p <= |s|
    ensures forall w :: w in WordsFrom(s, p) ==> WordOccurs(s, w)
    decreases |s| - p
  {
    if p < |s| {
      match WordAt(s, p)
      case Some(q) =>
        WordsFromSound(s, q);
        var w := s[p..q];
        assert s[p..p + |w|] == w;
        assert WordOccurs(s, w);
      case None =>
        WordsFromSound(s, p + 1);
    }
  }

  /** A field name on its own, ending in a letter or digit, is its own one-word set. */
  lemma WordsetOfName(w: string)
    requires IsWordShape(w) && w[|w| - 1] != '-'
    ensures Wordset(w) == {w}
  {
    forall i | 0 <= i < |w| ensures !IsLowerLetter(w[i]) {
      if i > 0 { assert IsNameChar(w[i]); }
    }
    UpperIdentity(w);
    NameRunUpTo(w, 1, |w|);
    assert Boundary(w, |w|);
    assert WordAt(w, 0) == Some(|w|);
    assert w[0..|w|] == w;
    assert WordsFrom(w, |w|) == {};
    assert WordsFrom(w, 0) == {w[0..|w|]} + WordsFrom(w, |w|);
  }

  /** The run of name characters from `p` stops at `e` when `e` ends the text or holds another character. */
  lemma {:induction false} NameRunUpTo(s: string, p: nat, e: nat)
    requires p <= e <= |s| && forall i :: p <= i < e ==> IsNameChar(s[i])
    requires e == |s| || !IsNameChar(s[e])
    ensures NameRun(s, p) == e - p
    decreases e - p
  {
    if p < e { NameRunUpTo(s, p + 1, e); }
  }

  /** A character that neither belongs to a word nor extends one: not `\w` and not `-`. */
  predicate Separator(c: char) {
    !IsWordChar(c) && c != '-'
  }

  /**
   * The scan from `p` cannot step over index `t` when the character before
   * `t` cannot be part of a word, so it collects everything the scan from
   * `t` collects.
   */
  lemma {:induction false} WordsFromReaches(s: string, p: nat, t: nat)
    requires p <= t <= |s|
    requires t == 0 || !IsNameChar(s[t - 1])
    ensures WordsFrom(s, t) <= WordsFrom(s, p)
    decreases t - p
  {
    if p < t {
      match WordAt(s, p)
      case Some(q) =>
        WordsFromReaches(s, q, t);
      case None =>
        WordsFromReaches(s, p + 1, t);
    }
  }

  /**
   * `_wordset` finds a word-shaped name anywhere in the text, as long as it
   * ends in a letter or digit and the characters on either side (if any)
   * are separators.
   */
  lemma WordsetFindsWord(pre: string, w: string, post: string)
    requires IsWordShape(w) && w[|w| - 1] != '-'
    requires pre == [] || Separator(pre[|pre| - 1])
    requires post == [] || Separator(post[0])
    ensures w in Wordset(pre + w + post)
  {
    var s := Upper(pre + w + post);
    UpperAround(pre, w, post);
    assert IsNameChar(w[|w| - 1]);
    WordFoundAt(s, |pre|, |pre| + |w|);
  }

  /** Upper-casing keeps a word-shaped name and its separators in place. */
  lemma UpperAround(pre: string, w: string, post: string)
    requires IsWordShape(w)
    requires pre == [] || Separator(pre[|pre| - 1])
    requires post == [] || Separator(post[0])
    ensures var s, t, e := Upper(pre + w + post), |pre|, |pre| + |w|;
      && s[t..e] == w
      && (t == 0 || Separator(s[t - 1]))
      && (e == |s| || Separator(s[e]))
  {
    forall i | 0 <= i < |w| ensures !IsLowerLetter(w[i]) {
      if i > 0 { assert IsNameChar(w[i]); }
    }
    UpperIdentity(w);
    UpperConcat(pre + w, post);
    UpperConcat(pre, w);
  }

  /** A word-shaped run from `t` to `e` with separators (or the text ends) on both sides is found by the scan. */
  lemma WordFoundAt(s: string, t: nat, e: nat)
    requires t + 2 <= e <= |s|
    requires IsWordShape(s[t..e]) && IsWordChar(s[e - 1])
    requires t == 0 || Separator(s[t - 1])
    requires e == |s| || Separator(s[e])
    ensures s[t..e] in WordsFrom(s, 0)
  {
    forall i | t < i < e ensures IsNameChar(s[i]) {
      assert s[i] == s[t..e][i - t];
    }
    assert IsUpperLetter(s[t]) by { assert s[t] == s[t..e][0]; }
    WordAtRun(s, t, e);
    WordsFromReaches(s, 0, t);
  }

  /** The match starting at `t` ends at `e`: the run of name characters stops there, and `\b` holds at both ends. */
  lemma WordAtRun(s: string, t: nat, e: nat)
    requires t + 2 <= e <= |s|
    requires IsUpperLetter(s[t]) && IsWordChar(s[e - 1])
    requires forall i :: t < i < e ==> IsNameChar(s[i])
    requires t == 0 || Separator(s[t - 1])
    requires e == |s| || Separator(s[e])
    ensures WordAt(s, t) == Some(e) && t < |s|
  {
    NameRunUpTo(s, t + 1, e);
    assert Boundary(s, t) && Boundary(s, e);
  }

  /** A character of the class `[A-Z0-9_\-]`. */
  predicate IsHostChar(c: char) {
    IsNameChar(c) || c == '_'
  }

  /** How many characters from index `p` on are of the class `[A-Z0-9_\-]`. */
  function HostRun(s: string, p: nat): (n: nat)
    requires p <= |s|
    ensures p + n <= |s|
    ensures forall i :: p <= i < p + n ==> IsHostChar(s[i])
    ensures p + n == |s| || !IsHostChar(s[p + n])
    decreases |s| - p
  {
    if p == |s| || !IsHostChar(s[p]) then 0 else 1 + HostRun(s, p + 1)
  }

  /** The names `RE_SQL_HOST.findall` reports scanning `s` from `p`: the greedy run after each `:`. */
  function HostVarsFrom(s: string, p: nat): (r: seq<string>)
    requires p <= |s|
    ensures forall k :: 0 <= k < |r| ==> r[k] != [] && forall i :: 0 <= i < |r[k]| ==> IsHostChar(r[k][i])
    decreases |s| - p
  {
    if p == |s| then []
    else if s[p] == ':' && p + 1 < |s| && IsHostChar(s[p + 1]) then
      var n := HostRun(s, p + 1);
      var v := s[p + 1..p + 1 + n];
      assert forall i :: 0 <= i < |v| ==> v[i] == s[p + 1 + i];
      [v] + HostVarsFrom(s, p + 1 + n)
    else HostVarsFrom(s, p + 1)
  }

  /** `v` follows a `:` in `s` and runs up to the first character outside `[A-Z0-9_\-]`. */
  predicate HostOccurs(s: string, v: string) {
    exists t: nat :: t + 1 + |v| <= |s| && s[t] == ':' && s[t + 1..t + 1 + |v|] == v
      && (t + 1 + |v| == |s| || !IsHostChar(s[t + 1 + |v|]))
  }

  /** `RE_SQL_HOST.findall(s)` */
  function HostVars(s: string): (r: seq<string>)
    ensures forall k :: 0 <= k < |r| ==> ':' !in r[k]
    ensures forall k :: 0 <= k < |r| ==> r[k] != [] && HostOccurs(s, r[k])
  {
    var r := HostVarsFrom(s, 0);
    assert forall k, i :: 0 <= k < |r| && 0 <= i < |r[k]| ==> IsHostChar(r[k][i]);
    HostVarsFromSound(s, 0);
    r
  }

  /** Every name the scan reports is the whole run of host characters after some `:`. */
  lemma {:induction false} HostVarsFromSound(s: string, p: nat)
    requires p <= |s|
    ensures forall k :: 0 <= k < |HostVarsFrom(s, p)| ==> HostOccurs(s, HostVarsFrom(s, p)[k])
    decreases |s| - p
  {
    if p < |s| {
      if s[p] == ':' && p + 1 < |s| && IsHostChar(s[p + 1]) {
        var n := HostRun(s, p + 1);
        var v := s[p + 1..p + 1 + n];
        HostVarsFromSound(s, p + 1 + n);
        assert HostOccurs(s, v) by {
          assert s[p + 1..p + 1 + |v|] == v;
        }
      } else {
        HostVarsFromSound(s, p + 1);
      }
    }
  }

  /** One host variable written as `:NAME` with nothing of the class after it. */
  lemma HostVarAlone(name: string)
    requires name != [] && forall i :: 0 <= i < |name| ==> IsHostChar(name[i])
    ensures HostVars(":" + name) == [name]
  {
    var s := ":" + name;
    assert s[1..] == name;
    forall i | 1 <= i < |s| ensures IsHostChar(s[i]) { assert s[i] == name[i - 1]; }
    HostRunUpTo(s, 1, |s|);
    assert s[1..|s|] == name;
    assert HostVarsFrom(s, |s|) == [];
    assert HostVarsFrom(s, 0) == [s[1..|s|]] + HostVarsFrom(s, |s|);
  }

  /** The run of host characters from `p` stops at `e` when `e` ends the text or holds another character. */
  lemma {:induction false} HostRunUpTo(s: string, p: nat, e: nat)
    requires p <= e <= |s| && forall i :: p <= i < e ==> IsHostChar(s[i])
    requires e == |s| || !IsHostChar(s[e])
    ensures HostRun(s, p) == e - p
    decreases e - p
  {
    if p < e { HostRunUpTo(s, p + 1, e); }
  }

  /** The host-variable scan from `p` cannot step over a `:` at index `t`. */
  lemma {:induction false} HostVarsFromReaches(s: string, p: nat, t: nat, v: string)
    requires p <= t < |s| && s[t] == ':'
    requires v in HostVarsFrom(s, t)
    ensures v in HostVarsFrom(s, p)
    decreases t - p
  {
    if p < t {
      if s[p] == ':' && p + 1 < |s| && IsHostChar(s[p + 1]) {
        HostVarsFromReaches(s, p + 1 + HostRun(s, p + 1), t, v);
      } else {
        HostVarsFromReaches(s, p + 1, t, v);
      }
    }
  }

  /** `:NAME` anywhere in a text yields `NAME` when no host character follows it. */
  lemma HostVarsFindsName(pre: string, name: string, post: string)
    requires name != [] && forall i :: 0 <= i < |name| ==> IsHostChar(name[i])
    requires post == [] || !IsHostChar(post[0])
    ensures name in HostVars(pre + ":" + name + post)
  {
    var s := pre + ":" + name + post;
    var t, e := |pre|, |pre| + 1 + |name|;
    forall i | 0 <= i < |name| ensures s[t + 1 + i] == name[i] { }
    assert s[t + 1..e] == name;
    assert e < |s| ==> s[e] == post[0];
    HostFoundAt(s, t, e);
  }

  /** A `:` at `t` followed by host characters up to `e`, and no host character at `e`, is found by the scan. */
  lemma HostFoundAt(s: string, t: nat, e: nat)
    requires t + 1 < e <= |s| && s[t] == ':'
    requires forall i :: t < i < e ==> IsHostChar(s[i])
    requires e == |s| || !IsHostChar(s[e])
    ensures s[t + 1..e] in HostVarsFrom(s, 0)
  {
    HostAtRun(s, t, e);
    HostVarsFromReaches(s, 0, t, s[t + 1..e]);
  }

  /** The scan at such a `:` reports the run up to `e` and resumes at `e`. */
  lemma HostAtRun(s: string, t: nat, e: nat)
    requires t + 1 < e <= |s| && s[t] == ':'
    requires forall i :: t < i < e ==> IsHostChar(s[i])
    requires e == |s| || !IsHostChar(s[e])
    ensures HostVarsFrom(s, t) == [s[t + 1..e]] + HostVarsFrom(s, e)
  {
    HostRunUpTo(s, t + 1, e);
  }

  // ----- _collect_copybook_fields -----

  /** `x or ''` for an optional group. */
  function OrEmpty(g: Option<string>): string {
    if g.Some? then g.value else ""
  }

  /** The meta `_collect_copybook_fields` records for one field match. */
  function MetaOf(fm: FieldMatch): (m: FieldMeta)
    ensures m.isStatic <==> m.value != ""
    ensures m.value == [] || (!IsSpace(m.value[0]) && !IsSpace(m.value[|m.value| - 1]))
  {
    var v := Strip(OrEmpty(fm.value));
    assert v == [] || (!IsSpace(v[0]) && !IsSpace(v[|v| - 1])) by {
      if v != [] { NotSpace(v[0]); NotSpace(v[|v| - 1]); }
    }
    FieldMeta(DecimalValue(fm.level), Upper(OrEmpty(fm.pic)), v, v != "")
  }

  /** The field table of one copybook text: the matches in order, a later one of the same name replacing an earlier one. */
  function FieldTable(ms: seq<FieldMatch>): (r: Fields)
    ensures forall k :: k in r ==> (r[k].isStatic <==> r[k].value != "")
    decreases |ms|
  {
    if ms == [] then map[]
    else FieldTable(ms[..|ms| - 1])[Upper(ms[|ms| - 1].name) := MetaOf(ms[|ms| - 1])]
  }

  /** The record name `_collect_copybook_fields` reports: the first 01-level name, upper-cased. */
  function RecordOf(cm: CopybookMatches): Option<string> {
    if cm.record01.Some? then Some(Upper(cm.record01.value)) else None
  }

  /** `_collect_copybook_fields(text)`, given the matches of the two copybook patterns in `text`. */
  method CollectCopybookFields(cm: CopybookMatches) returns (rec: Option<string>, fields: Fields)
    ensures rec == RecordOf(cm)
    ensures fields == FieldTable(cm.fields)
  {
    rec := None;
    if cm.record01.Some? {
      rec := Some(Upper(cm.record01.value));
    }
    fields := map[];
    var i := 0;
    while i < |cm.fields|
      invariant 0 <= i <= |cm.fields|
      invariant fields == FieldTable(cm.fields[..i])
    {
      FieldTableStep(cm.fields, i);
      var fm := cm.fields[i];
      var name := Upper(fm.name);
      var level := DecimalValue(fm.level);
      var pic := Upper(OrEmpty(fm.pic));
      var val := Strip(OrEmpty(fm.value));
      fields := fields[name := FieldMeta(level, pic, val, val != "")];
      i := i + 1;
    }
    assert cm.fields[..|cm.fields|] == cm.fields;
  }

  /** One more match extends the table by its entry. */
  lemma FieldTableStep(ms: seq<FieldMatch>, i: nat)
    requires i < |ms|
    ensures FieldTable(ms[..i + 1]) == FieldTable(ms[..i])[Upper(ms[i].name) := MetaOf(ms[i])]
  {
    assert ms[..i + 1][..i] == ms[..i];
  }

  /** The declared names are exactly the upper-cased names of the matches. */
  lemma {:induction false} FieldTableKeys(ms: seq<FieldMatch>)
    ensures FieldTable(ms).Keys == NamesOf(ms)
    decreases |ms|
  {
    if ms != [] {
      var init := ms[..|ms| - 1];
      FieldTableKeys(init);
      NamesOfSnoc(init, ms[|ms| - 1]);
      assert ms == init + [ms[|ms| - 1]];
    }
  }

  /** The upper-cased names of the matches. */
  function NamesOf(ms: seq<FieldMatch>): set<string> {
    set m | m in ms :: Upper(m.name)
  }

  lemma NamesOfSnoc(ms: seq<FieldMatch>, x: FieldMatch)
    ensures NamesOf(ms + [x]) == NamesOf(ms) + {Upper(x.name)}
  {
    assert forall m :: m in ms + [x] <==> m in ms || m == x;
  }

  /** Inside one copybook the last declaration of a name is the one kept. */
  lemma {:induction false} FieldTableLastWins(ms: seq<FieldMatch>, i: nat)
    requires i < |ms|
    requires forall j :: i < j < |ms| ==> Upper(ms[j].name) != Upper(ms[i].name)
    ensures Upper(ms[i].name) in FieldTable(ms)
    ensures FieldTable(ms)[Upper(ms[i].name)] == MetaOf(ms[i])
    decreases |ms|
  {
    if i < |ms| - 1 {
      var init := ms[..|ms| - 1];
      assert init[i] == ms[i];
      FieldTableLastWins(init, i);
    }
  }

  // ----- Merging copybooks -----

  /** `for k, v in b.items(): a.setdefault(k, v)`: entries of `a` are kept, the rest of `b` is added. */
  function FirstWins(a: Fields, b: Fields): (r: Fields)
    ensures r.Keys == a.Keys + b.Keys
  {
    map k | k in a.Keys + b.Keys :: if k in a then a[k] else b[k]
  }

  /** The `setdefault` loop of `analyze_fields` for one copybook's table. */
  method MergeFirstWins(fields: Fields, fdict: Fields) returns (merged: Fields)
    ensures merged == FirstWins(fields, fdict)
  {
    merged := fields;
    var todo := fdict.Keys;
    while todo != {}
      invariant todo <= fdict.Keys
      invariant SetdefaultDone(fields, fdict, todo, merged)
      decreases |todo|
    {
      var k :| k in todo;
      SetdefaultStep(fields, fdict, todo, merged, k);
      if k !in merged {
        merged := merged[k := fdict[k]];
      }
      todo := todo - {k};
    }
    FirstWinsPointwise(fields, fdict, merged);
  }

  /** `merged` is `fields` after `setdefault` of every name of `fdict` outside `todo`. */
  predicate SetdefaultDone(fields: Fields, fdict: Fields, todo: set<string>, merged: Fields) {
    && merged.Keys == fields.Keys + (fdict.Keys - todo)
    && forall k :: k in merged ==> k in fields.Keys + fdict.Keys && merged[k] == if k in fields then fields[k] else fdict[k]
  }

  /** One `setdefault` call keeps `SetdefaultDone`. */
  lemma SetdefaultStep(fields: Fields, fdict: Fields, todo: set<string>, merged: Fields, k: string)
    requires todo <= fdict.Keys && k in todo
    requires SetdefaultDone(fields, fdict, todo, merged)
    ensures SetdefaultDone(fields, fdict, todo - {k}, if k in merged then merged else merged[k := fdict[k]])
  {
  }

  /** A table that agrees with `FirstWins(a, b)` name by name is `FirstWins(a, b)`. */
  lemma FirstWinsPointwise(a: Fields, b: Fields, m: Fields)
    requires SetdefaultDone(a, b, {}, m)
    ensures m == FirstWins(a, b)
  {
    var f := FirstWins(a, b);
    assert forall k :: k in f ==> f[k] == m[k];
  }

  /** The merged table of the selected copybooks, in row order. */
  function MergedFields(cbs: seq<FieldRow>): (r: Fields)
    ensures forall k :: k in r ==> (r[k].isStatic <==> r[k].value != "")
    decreases |cbs|
  {
    if cbs == [] then map[]
    else FirstWins(MergedFields(cbs[..|cbs| - 1]), FieldTable(cbs[|cbs| - 1].copybook.fields))
  }

  /** The table of the copybook in row `cb`. */
  function TableOf(cb: FieldRow): Fields {
    FieldTable(cb.copybook.fields)
  }

  /**
   * Across copybooks the first definition wins: a name is taken from the
   * first selected copybook that declares it.
   */
  lemma {:induction false} MergedFirstWins(cbs: seq<FieldRow>, i: nat, k: string)
    requires i < |cbs| && k in TableOf(cbs[i])
    requires forall j :: 0 <= j < i ==> k !in TableOf(cbs[j])
    ensures k in MergedFields(cbs) && MergedFields(cbs)[k] == TableOf(cbs[i])[k]
    decreases |cbs|
  {
    var init := cbs[..|cbs| - 1];
    FirstWinsAt(MergedFields(init), TableOf(cbs[|cbs| - 1]), k);
    if i < |cbs| - 1 {
      forall j | 0 <= j < i ensures k !in TableOf(init[j]) { assert init[j] == cbs[j]; }
      assert init[i] == cbs[i];
      MergedFirstWins(init, i, k);
    } else {
      forall j | 0 <= j < |init| ensures k !in TableOf(init[j]) { assert init[j] == cbs[j]; }
      MergedKeysFrom(init, k);
    }
  }

  /** What `FirstWins(a, b)` holds for one name. */
  lemma FirstWinsAt(a: Fields, b: Fields, k: string)
    ensures k in FirstWins(a, b) <==> k in a || k in b
    ensures k in a ==> FirstWins(a, b)[k] == a[k]
    ensures k !in a && k in b ==> FirstWins(a, b)[k] == b[k]
  {
  }

  /** A name in none of the tables is not in the merge. */
  lemma {:induction false} MergedKeysFrom(cbs: seq<FieldRow>, k: string)
    requires forall j :: 0 <= j < |cbs| ==> k !in TableOf(cbs[j])
    ensures k !in MergedFields(cbs)
    decreases |cbs|
  {
    if cbs != [] {
      var init := cbs[..|cbs| - 1];
      forall j | 0 <= j < |init| ensures k !in TableOf(init[j]) { assert init[j] == cbs[j]; }
      MergedKeysFrom(init, k);
    }
  }

  /** The record names of the selected copybooks: each `rec` that is truthy. */
  function RecordNames(cbs: seq<FieldRow>): set<string>
    decreases |cbs|
  {
    if cbs == [] then {}
    else
      var rec := RecordOf(cbs[|cbs| - 1].copybook);
      RecordNames(cbs[..|cbs| - 1]) + (if rec.Some? && rec.value != "" then {rec.value} else {})
  }

  // ----- Copybook selection -----

  /** `".cpy" in low or ".copybook" in low or "copybook:" in fn.upper()` */
  predicate IsCopybookName(fn: string) {
    Contains(Lower(fn), ".cpy") || Contains(Lower(fn), ".copybook") || Contains(Upper(fn), "copybook:")
  }

  /** The third test of `IsCopybookName` looks for lower-case letters in an upper-cased name, so it never holds. */
  lemma CopybookPrefixNeverMatches(fn: string)
    ensures !Contains(Upper(fn), "copybook:")
    ensures IsCopybookName(fn) <==> Contains(Lower(fn), ".cpy") || Contains(Lower(fn), ".copybook")
  {
    UpperHasNoLowerLetter(fn);
    NoLowerNoLowerSub(Upper(fn), "copybook:", 0);
  }

  /** An empty hint passes every copybook; otherwise it must occur in the upper-cased name or content. */
  predicate PassesHint(row: FieldRow, hint: string) {
    hint == "" || Contains(Upper(row.filename), hint) || Contains(Upper(row.content), hint)
  }

  predicate IsSelected(row: FieldRow, hint: string) {
    IsCopybookName(row.filename) && PassesHint(row, hint)
  }

  /** The copybook rows `analyze_fields` keeps, in row order. */
  function SelectedRows(rows: seq<FieldRow>, hint: string): (cbs: seq<FieldRow>)
    ensures forall x :: x in cbs <==> x in rows && IsSelected(x, hint)
    decreases |rows|
  {
    if rows == [] then []
    else
      var init := rows[..|rows| - 1];
      var last := rows[|rows| - 1];
      assert rows == init + [last];
      SelectedRows(init, hint) + (if IsSelected(last, hint) then [last] else [])
  }

  // ----- Classifying one program chunk -----

  /** Each of `names`, upper-cased, that is a declared field. */
  function KnownNames(fields: Fields, names: seq<string>): (r: set<string>)
    ensures r <= fields.Keys
    ensures forall n :: n in names && Upper(n) in fields ==> Upper(n) in r
    ensures forall x :: x in r <==> x in fields && NamedIn(names, x)
  {
    set n | n in names && Upper(n) in fields :: Upper(n)
  }

  /** The words of each IF condition that are candidate words. */
  function IfInputs(conditions: seq<string>, candidates: set<string>): (r: set<string>)
    ensures r <= candidates
    ensures forall k :: 0 <= k < |conditions| ==> Wordset(conditions[k]) * candidates <= r
    ensures forall x :: x in r <==> x in candidates && exists k :: 0 <= k < |conditions| && x in Wordset(conditions[k])
    decreases |conditions|
  {
    if conditions == [] then {}
    else
      var init := conditions[..|conditions| - 1];
      assert forall k :: 0 <= k < |init| ==> init[k] == conditions[k];
      IfInputs(init, candidates) + Wordset(conditions[|conditions| - 1]) * candidates
  }

  /** The known MOVE sources. */
  function MoveSources(fields: Fields, moves: seq<(string, string)>): (r: set<string>)
    ensures r <= fields.Keys
    ensures forall m :: m in moves && Upper(m.0) in fields ==> Upper(m.0) in r
  {
    set m | m in moves && Upper(m.0) in fields :: Upper(m.0)
  }

  /** The known MOVE destinations. */
  function MoveDestinations(fields: Fields, moves: seq<(string, string)>): (r: set<string>)
    ensures r <= fields.Keys
    ensures forall m :: m in moves && Upper(m.1) in fields ==> Upper(m.1) in r
  {
    set m | m in moves && Upper(m.1) in fields :: Upper(m.1)
  }

  /** The known host variables of an optional clause. */
  function ClauseHostVars(fields: Fields, clause: Option<string>): (r: set<string>)
    ensures r <= fields.Keys
  {
    if clause.Some? then KnownNames(fields, HostVars(clause.value)) else {}
  }

  /** An INSERT or UPDATE block reads its SET and other host variables; a SELECT block reads its WHERE host variables. */
  function BlockInputs(fields: Fields, b: HostBlock): (r: set<string>)
    ensures r <= fields.Keys
    ensures !b.hasInsert && !b.hasUpdate && !b.hasSelect ==> r == {}
  {
    (if b.hasInsert || b.hasUpdate then ClauseHostVars(fields, b.setClause) + KnownNames(fields, HostVars(b.text)) else {})
    + (if b.hasSelect then ClauseHostVars(fields, b.whereClause) else {})
  }

  /** A SELECT block writes the host variables of its INTO clauses. */
  function BlockUpdates(fields: Fields, b: HostBlock): (r: set<string>)
    ensures r <= fields.Keys
    ensures !b.hasSelect ==> r == {}
    decreases |b.intoClauses|
  {
    if !b.hasSelect || b.intoClauses == [] then {}
    else
      var init := b.(intoClauses := b.intoClauses[..|b.intoClauses| - 1]);
      BlockUpdates(fields, init) + KnownNames(fields, HostVars(b.intoClauses[|b.intoClauses| - 1]))
  }

  function SqlInputs(fields: Fields, blocks: seq<HostBlock>): (r: set<string>)
    ensures r <= fields.Keys
    decreases |blocks|
  {
    if blocks == [] then {} else SqlInputs(fields, blocks[..|blocks| - 1]) + BlockInputs(fields, blocks[|blocks| - 1])
  }

  function SqlUpdates(fields: Fields, blocks: seq<HostBlock>): (r: set<string>)
    ensures r <= fields.Keys
    decreases |blocks|
  {
    if blocks == [] then {} else SqlUpdates(fields, blocks[..|blocks| - 1]) + BlockUpdates(fields, blocks[|blocks| - 1])
  }

  /** Some WRITE or REWRITE target, upper-cased, is a record name. */
  predicate WritesRecord(p: ProgramMatches, records: set<string>) {
    (exists w :: w in p.writes && Upper(w) in records) || (exists w :: w in p.rewrites && Upper(w) in records)
  }

  /** `cond_words.intersection(candidate_words)` draws on `_wordset(u) ∩ fields`. */
  function Candidates(fields: Fields, row: FieldRow): (r: set<string>)
    ensures r <= fields.Keys
  {
    Wordset(Upper(row.content)) * fields.Keys
  }

  /** What one program chunk adds to `input_use`. */
  function RowInputs(fields: Fields, row: FieldRow): (r: set<string>)
    ensures r <= fields.Keys
    ensures MoveSources(fields, row.program.moves) <= r
  {
    var p := row.program;
    IfInputs(p.ifConditions, Candidates(fields, row)) + MoveSources(fields, p.moves) + SqlInputs(fields, p.sqlBlocks)
  }

  /** The known destinations of MOVE, COMPUTE, ADD, SUBTRACT, MULTIPLY and DIVIDE. */
  function ArithmeticUpdates(fields: Fields, p: ProgramMatches): (r: set<string>)
    ensures r <= fields.Keys
  {
    MoveDestinations(fields, p.moves) + KnownNames(fields, p.computes) + KnownNames(fields, p.adds)
    + KnownNames(fields, p.subtracts) + KnownNames(fields, p.multiplies) + KnownNames(fields, p.divides)
  }

  /** What one program chunk adds to `updated_use`. */
  function RowUpdates(fields: Fields, records: set<string>, row: FieldRow): (r: set<string>)
    ensures r <= fields.Keys
    ensures WritesRecord(row.program, records) ==> r == fields.Keys
    ensures ArithmeticUpdates(fields, row.program) <= r
  {
    var p := row.program;
    ArithmeticUpdates(fields, p) + SqlUpdates(fields, p.sqlBlocks)
    + (if WritesRecord(p, records) then fields.Keys else {})
  }

  /** `input_use` after the rows, in order. */
  function InputUse(fields: Fields, rows: seq<FieldRow>): (r: set<string>)
    ensures r <= fields.Keys
    decreases |rows|
  {
    if rows == [] then {} else InputUse(fields, rows[..|rows| - 1]) + RowInputs(fields, rows[|rows| - 1])
  }

  /** `updated_use` after the rows, in order. */
  function UpdatedUse(fields: Fields, records: set<string>, rows: seq<FieldRow>): (r: set<string>)
    ensures r <= fields.Keys
    decreases |rows|
  {
    if rows == [] then {} else UpdatedUse(fields, records, rows[..|rows| - 1]) + RowUpdates(fields, records, rows[|rows| - 1])
  }

  /** `static_fields`: the fields whose meta says static. */
  function StaticFields(fields: Fields): (r: set<string>)
    ensures forall k :: k in r <==> k in fields && fields[k].isStatic
  {
    set k | k in fields && fields[k].isStatic
  }

  // ----- analyze_fields -----

  /** The result `analyze_fields` returns for these rows and this hint. */
  ghost function FieldAnalysis(rows: seq<FieldRow>, copybookHint: string): FieldReport {
    var hint := Upper(copybookHint);
    var cbs := SelectedRows(rows, hint);
    if cbs == [] then NoCopybook(hint)
    else
      var fields := MergedFields(cbs);
      var records := RecordNames(cbs);
      var input := InputUse(fields, rows);
      var updated := UpdatedUse(fields, records, rows);
      var statics := StaticFields(fields);
      var unused := fields.Keys - (input + updated);
      Report(hint, SortedSet(records),
        Totals(|fields|, |input|, |updated|, |statics|, |unused|),
        SortedSet(input), SortedSet(updated), SortedSet(statics), SortedSet(unused), fields)
  }

  /** `analyze_fields(db, session_id, copybook_hint)` over the session's rows in id order. */
  method AnalyzeFields(rows: seq<FieldRow>, copybookHint: string) returns (r: FieldReport)
    ensures r == FieldAnalysis(rows, copybookHint)
  {
    var cbHint := Upper(copybookHint);
    var cbTexts := SelectCopybooks(rows, cbHint);
    if cbTexts == [] {
      return NoCopybook(cbHint);
    }
    var recordNames, fields := MergeCopybooks(cbTexts);
    var staticFields := StaticFields(fields);
    var inputUse, updatedUse := ClassifyUses(fields, recordNames, rows);
    var used := inputUse + updatedUse;
    var unused := fields.Keys - used;
    var recordList := SortSet(recordNames);
    var inputList := SortSet(inputUse);
    var updatedList := SortSet(updatedUse);
    var staticList := SortSet(staticFields);
    var unusedList := SortSet(unused);
    r := Report(cbHint, recordList,
      Totals(|fields|, |inputUse|, |updatedUse|, |staticFields|, |unused|),
      inputList, updatedList, staticList, unusedList, fields);
  }

  /** The first loop of `analyze_fields`: the copybook rows that pass the hint. */
  method SelectCopybooks(rows: seq<FieldRow>, cbHint: string) returns (cbTexts: seq<FieldRow>)
    ensures cbTexts == SelectedRows(rows, cbHint)
  {
    cbTexts := [];
    var i := 0;
    while i < |rows|
      invariant 0 <= i <= |rows|
      invariant cbTexts == SelectedRows(rows[..i], cbHint)
    {
      SelectedStep(rows, i, cbHint);
      var row := rows[i];
      var low := Lower(row.filename);
      if Contains(low, ".cpy") || Contains(low, ".copybook") || Contains(Upper(row.filename), "copybook:") {
        if !(cbHint != "" && !Contains(Upper(row.filename), cbHint) && !Contains(Upper(row.content), cbHint)) {
          cbTexts := cbTexts + [row];
        }
      }
      i := i + 1;
    }
    assert rows[..|rows|] == rows;
  }

  /** The second loop: record names and the first-wins merge of the copybooks' field tables. */
  method MergeCopybooks(cbTexts: seq<FieldRow>) returns (recordNames: set<string>, fields: Fields)
    ensures recordNames == RecordNames(cbTexts)
    ensures fields == MergedFields(cbTexts)
  {
    recordNames := {};
    fields := map[];
    var j := 0;
    while j < |cbTexts|
      invariant 0 <= j <= |cbTexts|
      invariant fields == MergedFields(cbTexts[..j])
      invariant recordNames == RecordNames(cbTexts[..j])
    {
      MergeStep(cbTexts, j);
      var rec, fdict := CollectCopybookFields(cbTexts[j].copybook);
      if rec.Some? && rec.value != "" {
        recordNames := recordNames + {rec.value};
      }
      fields := MergeFirstWins(fields, fdict);
      j := j + 1;
    }
    assert cbTexts[..|cbTexts|] == cbTexts;
  }

  /** The third loop: every row's references, sorted into `input_use` and `updated_use`. */
  method ClassifyUses(fields: Fields, recordNames: set<string>, rows: seq<FieldRow>)
    returns (inputUse: set<string>, updatedUse: set<string>)
    ensures inputUse == InputUse(fields, rows)
    ensures updatedUse == UpdatedUse(fields, recordNames, rows)
  {
    inputUse := {};
    updatedUse := {};
    var i := 0;
    while i < |rows|
      invariant 0 <= i <= |rows|
      invariant inputUse == InputUse(fields, rows[..i])
      invariant updatedUse == UpdatedUse(fields, recordNames, rows[..i])
    {
      UseStep(fields, recordNames, rows, i);
      var rowInput, rowUpdated := ClassifyRow(fields, recordNames, rows[i]);
      inputUse := inputUse + rowInput;
      updatedUse := updatedUse + rowUpdated;
      i := i + 1;
    }
    assert rows[..|rows|] == rows;
  }

  /** The body of the third loop for one row: what it adds to each bucket. */
  method ClassifyRow(fields: Fields, recordNames: set<string>, row: FieldRow)
    returns (rowInput: set<string>, rowUpdated: set<string>)
    ensures rowInput == RowInputs(fields, row)
    ensures rowUpdated == RowUpdates(fields, recordNames, row)
  {
    var p := row.program;
    var u := Upper(row.content);
    var candidateWords := Wordset(u) * fields.Keys;
    rowInput := IfInputs(p.ifConditions, candidateWords);
    rowInput := rowInput + MoveSources(fields, p.moves);
    rowUpdated := ArithmeticUpdates(fields, p);
    rowInput := rowInput + SqlInputs(fields, p.sqlBlocks);
    rowUpdated := rowUpdated + SqlUpdates(fields, p.sqlBlocks);
    if WritesRecord(p, recordNames) {
      rowUpdated := rowUpdated + fields.Keys;
    }
  }

  lemma SelectedStep(rows: seq<FieldRow>, i: nat, hint: string)
    requires i < |rows|
    ensures SelectedRows(rows[..i + 1], hint)
      == SelectedRows(rows[..i], hint) + (if IsSelected(rows[i], hint) then [rows[i]] else [])
  {
    assert rows[..i + 1][..i] == rows[..i];
  }

  lemma MergeStep(cbs: seq<FieldRow>, j: nat)
    requires j < |cbs|
    ensures MergedFields(cbs[..j + 1]) == FirstWins(MergedFields(cbs[..j]), TableOf(cbs[j]))
    ensures RecordNames(cbs[..j + 1]) == RecordNames(cbs[..j])
      + (var rec := RecordOf(cbs[j].copybook); if rec.Some? && rec.value != "" then {rec.value} else {})
  {
    assert cbs[..j + 1][..j] == cbs[..j];
  }

  lemma UseStep(fields: Fields, records: set<string>, rows: seq<FieldRow>, i: nat)
    requires i < |rows|
    ensures InputUse(fields, rows[..i + 1]) == InputUse(fields, rows[..i]) + RowInputs(fields, rows[i])
    ensures UpdatedUse(fields, records, rows[..i + 1]) == UpdatedUse(fields, records, rows[..i]) + RowUpdates(fields, records, rows[i])
  {
    InputStep(fields, rows, i);
    UpdatedStep(fields, records, rows, i);
  }

  lemma InputStep(fields: Fields, rows: seq<FieldRow>, i: nat)
    requires i < |rows|
    ensures InputUse(fields, rows[..i + 1]) == InputUse(fields, rows[..i]) + RowInputs(fields, rows[i])
  {
    assert rows[..i + 1][..i] == rows[..i];
  }

  lemma UpdatedStep(fields: Fields, records: set<string>, rows: seq<FieldRow>, i: nat)
    requires i < |rows|
    ensures UpdatedUse(fields, records, rows[..i + 1]) == UpdatedUse(fields, records, rows[..i]) + RowUpdates(fields, records, rows[i])
  {
    assert rows[..i + 1][..i] == rows[..i];
  }

  // ----- Properties of the result -----

  /** The error result comes back exactly when no row is a selected copybook, and it carries the upper-cased hint. */
  lemma FieldReportNoCopybook(rows: seq<FieldRow>, copybookHint: string)
    ensures FieldAnalysis(rows, copybookHint).NoCopybook?
      <==> forall row :: row in rows ==> !IsSelected(row, Upper(copybookHint))
    ensures FieldAnalysis(rows, copybookHint).NoCopybook? ==> FieldAnalysis(rows, copybookHint).hint == Upper(copybookHint)
  {
    var cbs := SelectedRows(rows, Upper(copybookHint));
    if cbs != [] {
      assert cbs[0] in cbs;
    }
  }

  /**
   * `input` and `derived_or_updated` are declared names, and `unused` is
   * the rest: the three cover the field table and `unused` meets neither
   * of the other two.
   */
  lemma FieldReportBuckets(rows: seq<FieldRow>, copybookHint: string)
    requires FieldAnalysis(rows, copybookHint).Report?
    ensures var r := FieldAnalysis(rows, copybookHint);
      var keys, input, updated, unused := r.fieldMeta.Keys, SetOf(r.input), SetOf(r.derivedOrUpdated), SetOf(r.unused);
      && input <= keys && updated <= keys
      && input + updated + unused == keys
      && unused * input == {} && unused * updated == {}
  {
    var cbs := SelectedRows(rows, Upper(copybookHint));
    var fields := MergedFields(cbs);
    var input := InputUse(fields, rows);
    var updated := UpdatedUse(fields, RecordNames(cbs), rows);
    BucketAlgebra(fields.Keys, input, updated);
  }

  /** The rest of a set after removing two of its subsets completes a cover and meets neither subset. */
  lemma BucketAlgebra(keys: set<string>, input: set<string>, updated: set<string>)
    requires input <= keys && updated <= keys
    ensures input + updated + (keys - (input + updated)) == keys
    ensures (keys - (input + updated)) * input == {} && (keys - (input + updated)) * updated == {}
  {
  }

  /** Every list is sorted and duplicate-free, `static` is the static fields, and each total is its list's length. */
  lemma FieldReportTotals(rows: seq<FieldRow>, copybookHint: string)
    requires FieldAnalysis(rows, copybookHint).Report?
    ensures var r := FieldAnalysis(rows, copybookHint);
      && StrictlySorted(r.recordNames) && StrictlySorted(r.input) && StrictlySorted(r.derivedOrUpdated)
      && StrictlySorted(r.statics) && StrictlySorted(r.unused)
      && (forall k :: k in SetOf(r.statics) <==> k in r.fieldMeta && r.fieldMeta[k].isStatic)
      && (forall k :: k in r.fieldMeta ==> (r.fieldMeta[k].isStatic <==> r.fieldMeta[k].value != ""))
      && r.totals.fields == |r.fieldMeta|
      && r.totals.input == |r.input| && r.totals.derivedOrUpdated == |r.derivedOrUpdated|
      && r.totals.statics == |r.statics| && r.totals.unused == |r.unused|
  {
  }

  /**
   * The classification rules, row by row: a known MOVE source is input; a
   * known destination of MOVE, COMPUTE, ADD, SUBTRACT, MULTIPLY or DIVIDE
   * is updated; a WRITE or REWRITE of a record name updates every field.
   */
  lemma FieldReportRowRules(rows: seq<FieldRow>, copybookHint: string, i: nat)
    requires FieldAnalysis(rows, copybookHint).Report? && i < |rows|
    ensures var r := FieldAnalysis(rows, copybookHint);
      && MoveSources(r.fieldMeta, rows[i].program.moves) <= SetOf(r.input)
      && ArithmeticUpdates(r.fieldMeta, rows[i].program) <= SetOf(r.derivedOrUpdated)
      && (WritesRecord(rows[i].program, SetOf(r.recordNames)) ==> SetOf(r.derivedOrUpdated) == r.fieldMeta.Keys)
  {
    var cbs := SelectedRows(rows, Upper(copybookHint));
    var fields := MergedFields(cbs);
    RowInUse(fields, RecordNames(cbs), rows, i);
  }

  /** Each row's contribution is part of the buckets after all rows. */
  lemma {:induction false} RowInUse(fields: Fields, records: set<string>, rows: seq<FieldRow>, i: nat)
    requires i < |rows|
    ensures RowInputs(fields, rows[i]) <= InputUse(fields, rows)
    ensures RowUpdates(fields, records, rows[i]) <= UpdatedUse(fields, records, rows)
    decreases |rows|
  {
    if i < |rows| - 1 {
      var init := rows[..|rows| - 1];
      assert init[i] == rows[i];
      RowInUse(fields, records, init, i);
    }
  }

  // ----- Which rules put a field in a bucket -----

  /** Some name of `names`, upper-cased, is `x`. */
  predicate NamedIn(names: seq<string>, x: string) {
    exists n :: n in names && Upper(n) == x
  }

  /**
   * An SQL block reads host variable `x`: anywhere in an INSERT or UPDATE
   * block (its SET clause included), or in the WHERE clause of a SELECT
   * block.
   */
  predicate SqlReads(b: HostBlock, x: string) {
    ((b.hasInsert || b.hasUpdate)
      && (NamedIn(HostVars(b.text), x) || (b.setClause.Some? && NamedIn(HostVars(b.setClause.value), x))))
    || (b.hasSelect && b.whereClause.Some? && NamedIn(HostVars(b.whereClause.value), x))
  }

  /** A SELECT block writes host variable `x` through one of its INTO clauses. */
  predicate SqlWrites(b: HostBlock, x: string) {
    b.hasSelect && InClauses(b.intoClauses, x)
  }

  /** Some clause of `clauses` has a host variable that upper-cases to `x`. */
  predicate InClauses(clauses: seq<string>, x: string) {
    exists k :: 0 <= k < |clauses| && NamedIn(HostVars(clauses[k]), x)
  }

  lemma InClausesSnoc(clauses: seq<string>, x: string)
    requires clauses != []
    ensures var n := |clauses| - 1;
      InClauses(clauses, x) <==> InClauses(clauses[..n], x) || NamedIn(HostVars(clauses[n]), x)
  {
    var n := |clauses| - 1;
    assert forall k :: 0 <= k < n ==> clauses[..n][k] == clauses[k];
  }

  /**
   * A chunk reads the declared field `x`: as a word of an IF condition that
   * is also a word of the chunk, as a MOVE source, or as a host variable an
   * SQL block reads.
   */
  predicate Reads(fields: Fields, row: FieldRow, x: string) {
    var p := row.program;
    x in fields
    && ((x in Wordset(Upper(row.content)) && exists k :: 0 <= k < |p.ifConditions| && x in Wordset(p.ifConditions[k]))
        || (exists m :: m in p.moves && Upper(m.0) == x)
        || (exists b :: b in p.sqlBlocks && SqlReads(b, x)))
  }

  /**
   * A chunk writes the declared field `x`: by a WRITE or REWRITE of a
   * record, as the destination of MOVE, COMPUTE, ADD, SUBTRACT, MULTIPLY or
   * DIVIDE, or as a host variable of a SELECT ... INTO.
   */
  predicate Writes(fields: Fields, records: set<string>, row: FieldRow, x: string) {
    var p := row.program;
    x in fields
    && (WritesRecord(p, records)
        || (exists m :: m in p.moves && Upper(m.1) == x)
        || NamedIn(p.computes, x) || NamedIn(p.adds, x) || NamedIn(p.subtracts, x)
        || NamedIn(p.multiplies, x) || NamedIn(p.divides, x)
        || (exists b :: b in p.sqlBlocks && SqlWrites(b, x)))
  }

  lemma {:induction false} SqlInputsIff(fields: Fields, blocks: seq<HostBlock>, x: string)
    ensures x in SqlInputs(fields, blocks) <==> x in fields && exists b :: b in blocks && SqlReads(b, x)
    decreases |blocks|
  {
    if blocks != [] {
      var init, last := blocks[..|blocks| - 1], blocks[|blocks| - 1];
      SqlInputsIff(fields, init, x);
      BlockInputsIff(fields, last, x);
      assert blocks == init + [last];
      assert forall b :: b in blocks <==> b in init || b == last;
    }
  }

  lemma BlockInputsIff(fields: Fields, b: HostBlock, x: string)
    ensures x in BlockInputs(fields, b) <==> x in fields && SqlReads(b, x)
  {
  }

  lemma {:induction false} BlockUpdatesIff(fields: Fields, b: HostBlock, x: string)
    ensures x in BlockUpdates(fields, b) <==> x in fields && SqlWrites(b, x)
    decreases |b.intoClauses|
  {
    if b.hasSelect && b.intoClauses != [] {
      var n := |b.intoClauses| - 1;
      var init := b.(intoClauses := b.intoClauses[..n]);
      BlockUpdatesIff(fields, init, x);
      InClausesSnoc(b.intoClauses, x);
    }
  }

  lemma {:induction false} SqlUpdatesIff(fields: Fields, blocks: seq<HostBlock>, x: string)
    ensures x in SqlUpdates(fields, blocks) <==> x in fields && exists b :: b in blocks && SqlWrites(b, x)
    decreases |blocks|
  {
    if blocks != [] {
      var init, last := blocks[..|blocks| - 1], blocks[|blocks| - 1];
      SqlUpdatesIff(fields, init, x);
      BlockUpdatesIff(fields, last, x);
      assert blocks == init + [last];
      assert forall b :: b in blocks <==> b in init || b == last;
    }
  }

  /** What one chunk adds to `input_use` is exactly the declared fields it reads. */
  lemma RowInputsIff(fields: Fields, row: FieldRow, x: string)
    ensures x in RowInputs(fields, row) <==> Reads(fields, row, x)
  {
    SqlInputsIff(fields, row.program.sqlBlocks, x);
  }

  /** What one chunk adds to `updated_use` is exactly the declared fields it writes. */
  lemma RowUpdatesIff(fields: Fields, records: set<string>, row: FieldRow, x: string)
    ensures x in RowUpdates(fields, records, row) <==> Writes(fields, records, row, x)
  {
    SqlUpdatesIff(fields, row.program.sqlBlocks, x);
  }

  /**
   * In a fold that adds `add(rows[j])` at step `j`, whatever is there
   * after `k` steps was added at one of them.
   */
  lemma {:induction false} PrefixWitness(acc: seq<FieldRow> -> set<string>, add: FieldRow -> set<string>,
                                          rows: seq<FieldRow>, k: nat, x: string) returns (i: nat)
    requires k <= |rows| && x in acc(rows[..k]) && acc(rows[..0]) == {}
    requires forall j :: 0 <= j < k ==> acc(rows[..j + 1]) == acc(rows[..j]) + add(rows[j])
    ensures i < k && x in add(rows[i])
    decreases k
  {
    if x in acc(rows[..k - 1]) {
      i := PrefixWitness(acc, add, rows, k - 1, x);
    } else {
      i := k - 1;
    }
  }

  /** A field in `input_use` was added by some chunk. */
  lemma InputUseWitness(fields: Fields, rows: seq<FieldRow>, x: string) returns (i: nat)
    requires x in InputUse(fields, rows)
    ensures i < |rows| && x in RowInputs(fields, rows[i])
  {
    var acc := (r: seq<FieldRow>) => InputUse(fields, r);
    var add := (row: FieldRow) => RowInputs(fields, row);
    forall j | 0 <= j < |rows| ensures acc(rows[..j + 1]) == acc(rows[..j]) + add(rows[j]) {
      InputStep(fields, rows, j);
    }
    assert rows[..|rows|] == rows;
    i := PrefixWitness(acc, add, rows, |rows|, x);
  }

  /** A field in `updated_use` was added by some chunk. */
  lemma UpdatedUseWitness(fields: Fields, records: set<string>, rows: seq<FieldRow>, x: string) returns (i: nat)
    requires x in UpdatedUse(fields, records, rows)
    ensures i < |rows| && x in RowUpdates(fields, records, rows[i])
  {
    var acc := (r: seq<FieldRow>) => UpdatedUse(fields, records, r);
    var add := (row: FieldRow) => RowUpdates(fields, records, row);
    forall j | 0 <= j < |rows| ensures acc(rows[..j + 1]) == acc(rows[..j]) + add(rows[j]) {
      UpdatedStep(fields, records, rows, j);
    }
    assert rows[..|rows|] == rows;
    i := PrefixWitness(acc, add, rows, |rows|, x);
  }

  /** `input_use` holds exactly the declared fields some chunk reads. */
  lemma InputUseIff(fields: Fields, rows: seq<FieldRow>, x: string)
    ensures x in InputUse(fields, rows) <==> exists i :: 0 <= i < |rows| && Reads(fields, rows[i], x)
  {
    if x in InputUse(fields, rows) {
      var i := InputUseWitness(fields, rows, x);
      RowInputsIff(fields, rows[i], x);
    }
    forall i | 0 <= i < |rows| && Reads(fields, rows[i], x) ensures x in InputUse(fields, rows) {
      RowInputsIff(fields, rows[i], x);
      RowInUse(fields, {}, rows, i);
    }
  }

  /** `updated_use` holds exactly the declared fields some chunk writes. */
  lemma UpdatedUseIff(fields: Fields, records: set<string>, rows: seq<FieldRow>, x: string)
    ensures x in UpdatedUse(fields, records, rows) <==> exists i :: 0 <= i < |rows| && Writes(fields, records, rows[i], x)
  {
    if x in UpdatedUse(fields, records, rows) {
      var i := UpdatedUseWitness(fields, records, rows, x);
      RowUpdatesIff(fields, records, rows[i], x);
    }
    forall i | 0 <= i < |rows| && Writes(fields, records, rows[i], x) ensures x in UpdatedUse(fields, records, rows) {
      RowUpdatesIff(fields, records, rows[i], x);
      RowInUse(fields, records, rows, i);
    }
  }

  /**
   * The report's buckets by the rules: `input` is the fields some chunk
   * reads, `derived_or_updated` the fields some chunk writes, and `unused`
   * the declared fields no chunk reads or writes.
   */
  lemma FieldReportClassified(rows: seq<FieldRow>, copybookHint: string, x: string)
    requires FieldAnalysis(rows, copybookHint).Report?
    ensures var r := FieldAnalysis(rows, copybookHint);
      var fields, records := r.fieldMeta, SetOf(r.recordNames);
      && (x in SetOf(r.input) <==> exists i :: 0 <= i < |rows| && Reads(fields, rows[i], x))
      && (x in SetOf(r.derivedOrUpdated) <==> exists i :: 0 <= i < |rows| && Writes(fields, records, rows[i], x))
      && (x in SetOf(r.unused) <==>
            x in fields && forall i :: 0 <= i < |rows| ==> !Reads(fields, rows[i], x) && !Writes(fields, records, rows[i], x))
  {
    var cbs := SelectedRows(rows, Upper(copybookHint));
    var fields := MergedFields(cbs);
    InputUseIff(fields, rows, x);
    UpdatedUseIff(fields, RecordNames(cbs), rows, x);
  }

  // ----- First definition wins, over the session's rows -----

  lemma MergedSnoc(cbs: seq<FieldRow>, x: FieldRow)
    ensures MergedFields(cbs + [x]) == FirstWins(MergedFields(cbs), TableOf(x))
  {
    assert (cbs + [x])[..|cbs|] == cbs;
  }

  /** A name no selected row before the end declares is not in their merge. */
  lemma SelectedKeysFrom(rows: seq<FieldRow>, hint: string, k: string)
    requires forall j :: 0 <= j < |rows| && IsSelected(rows[j], hint) ==> k !in TableOf(rows[j])
    ensures k !in MergedFields(SelectedRows(rows, hint))
  {
    var cbs := SelectedRows(rows, hint);
    forall j | 0 <= j < |cbs| ensures k !in TableOf(cbs[j]) {
      assert cbs[j] in cbs;
      var x := cbs[j];
      var j' :| 0 <= j' < |rows| && rows[j'] == x;
    }
    MergedKeysFrom(cbs, k);
  }

  /**
   * In row order, the first selected copybook that declares a name gives
   * its meta: copybooks later in the session, and rows that are not
   * selected, do not override it.
   */
  lemma {:induction false} SelectedFirstWins(rows: seq<FieldRow>, hint: string, i: nat, k: string)
    requires i < |rows| && IsSelected(rows[i], hint) && k in TableOf(rows[i])
    requires forall j :: 0 <= j < i && IsSelected(rows[j], hint) ==> k !in TableOf(rows[j])
    ensures var m := MergedFields(SelectedRows(rows, hint)); k in m && m[k] == TableOf(rows[i])[k]
    decreases |rows|
  {
    var init, last := rows[..|rows| - 1], rows[|rows| - 1];
    var before := SelectedRows(init, hint);
    assert SelectedRows(rows, hint) == before + (if IsSelected(last, hint) then [last] else []);
    if i < |rows| - 1 {
      forall j | 0 <= j < i && IsSelected(init[j], hint) ensures k !in TableOf(init[j]) {
        assert init[j] == rows[j];
      }
      assert init[i] == rows[i];
      SelectedFirstWins(init, hint, i, k);
    } else {
      forall j | 0 <= j < |init| && IsSelected(init[j], hint) ensures k !in TableOf(init[j]) {
        assert init[j] == rows[j];
      }
      SelectedKeysFrom(init, hint, k);
    }
    if IsSelected(last, hint) {
      MergedSnoc(before, last);
    } else {
      assert before + [] == before;
    }
  }

  /**
   * The report of `analyze_fields` takes a field's meta from the first
   * copybook row, in row order, that passes the selection and declares it.
   */
  lemma AnalysisFirstWins(rows: seq<FieldRow>, copybookHint: string, i: nat, k: string)
    requires i < |rows| && IsSelected(rows[i], Upper(copybookHint)) && k in TableOf(rows[i])
    requires forall j :: 0 <= j < i && IsSelected(rows[j], Upper(copybookHint)) ==> k !in TableOf(rows[j])
    ensures var r := FieldAnalysis(rows, copybookHint);
      r.Report? && k in r.fieldMeta && r.fieldMeta[k] == TableOf(rows[i])[k]
  {
    var cbs := SelectedRows(rows, Upper(copybookHint));
    assert rows[i] in cbs;
    SelectedFirstWins(rows, Upper(copybookHint), i, k);
  }
}
