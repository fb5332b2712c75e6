/**
 * The CRUD lineage scan of `lineage.py`: each `(filename, content)` chunk of a
 * session yields `(subject, op, program)` observations, one construct at a
 * time, and these are folded into two maps, `files` and `tables`, from a
 * normalised subject to its operation counts and the set of programs seen.
 *
 * The regular expressions are not modelled: each chunk comes with the groups
 * every pattern captured, in match order (`ChunkMatches`).
 */
module Lineage {
  import opened Text
  import opened Ordering
  import opened Seqs

  // ----- Data -----

  /** `{"ops": {op: count}, "programs": set()}` for one subject. */
  datatype Entry = Entry(ops: map<string, nat>, programs: set<string>)

  /** A lineage map before finalisation: subject -> entry. */
  type Subjects = map<string, Entry>

  /** The arguments of one `_add_op` call (the unused `line` argument dropped). */
  datatype Observation = Observation(subject: string, op: string, program: string)

  /** The alternatives of `RE_SQL_VERB`; `.upper()` of a match is the keyword. */
  datatype SqlVerb = SqlSelect | SqlInsert | SqlUpdate | SqlDelete

  /** The alternatives of the verb group of `RE_CICS`. */
  datatype CicsVerb = CicsRead | CicsRewrite | CicsWrite | CicsDelete

  /** The alternatives of `RE_MQ_CALL`: `MQPUT`, `MQGET`, `MQOPEN`, `MQCLOSE`. */
  datatype MqVerb = MqPut | MqGet | MqOpen | MqClose

  /**
   * One `EXEC SQL ... END-EXEC.` block: every `RE_SQL_VERB` match in it, and
   * the two groups of every `RE_SQL_TABLE` match (`FROM x` or `INTO x`),
   * with "" for the group that did not take part.
   */
  datatype SqlBlock = SqlBlock(verbs: seq<SqlVerb>, targets: seq<(string, string)>)

  /** One `RE_CICS` match: verb, `FILE` or `QUEUE`, and the parenthesised name. */
  datatype CicsCall = CicsCall(verb: CicsVerb, kind: string, name: string)

  /** What each pattern of `lineage.py` captured in one chunk, in match order. */
  datatype ChunkMatches = ChunkMatches(
    fileAssigns: seq<string>,            // RE_FILE_ASSIGN group 1
    fds: seq<string>,                    // RE_FD
    readFiles: seq<string>,              // RE_READ
    writeFiles: seq<string>,             // RE_WRITE
    rewriteFiles: seq<string>,           // RE_REWRITE
    deleteFiles: seq<string>,            // RE_DELETE
    sqlBlocks: seq<SqlBlock>,            // RE_EXEC_SQL, with RE_SQL_VERB / RE_SQL_TABLE inside
    copies: seq<string>,                 // RE_COPY group 1
    cics: seq<CicsCall>,                 // RE_CICS
    mqCalls: seq<MqVerb>,                // RE_MQ_CALL
    xmlGenerates: seq<string>,           // RE_XML_GEN
    xmlParses: seq<string>,              // RE_XML_PARSE
    selectAssigns: seq<(string, string)>, // RE_SELECT_ASSIGN groups 1 and 2
    jclDsns: seq<string>)                // RE_JCL_DD group dsn

  /** One stored chunk row, with what the patterns found in its content. */
  datatype ScannedChunk = ScannedChunk(filename: string, content: string, matches: ChunkMatches)

  /** A finalised entry: `{"ops": ..., "programs": sorted(list(...))}`. */
  datatype FinalEntry = FinalEntry(ops: map<string, nat>, programs: seq<string>)

  /** The result of `analyze_session`. */
  datatype LineageReport = LineageReport(files: map<string, FinalEntry>, tables: map<string, FinalEntry>)

  // ----- _add_op -----

  /** The quote and dot characters `_add_op` strips after the whitespace. */
  const Dot: set<char> := {'.'}
  const DoubleQuote: set<char> := {'"'}
  const SingleQuote: set<char> := {'\''}

  /** The character sets `_add_op` strips from a subject, in order. */
  const SubjectStrips: seq<set<char>> := [Whitespace, Dot, DoubleQuote, SingleQuote]

  /** `s.strip(sets[0]).strip(sets[1])...` */
  function StripEach(s: string, sets: seq<set<char>>): string
    decreases |sets|
  {
    if sets == [] then s else StripEach(StripChars(s, sets[0]), sets[1..])
  }

  /** `subject.strip().strip('.').strip('"').strip("'")` */
  function NormSubject(subject: string): string {
    StripEach(subject, SubjectStrips)
  }

  predicate IsSubjectTrim(c: char) {
    IsSpace(c) || c == '.' || c == '"' || c == '\''
  }

  /** A string whose two ends are in none of the sets comes out of `StripEach` unchanged. */
  lemma {:induction false} StripEachKeeps(s: string, sets: seq<set<char>>)
    requires s != []
    requires forall k :: 0 <= k < |sets| ==> s[0] !in sets[k] && s[|s| - 1] !in sets[k]
    ensures StripEach(s, sets) == s
    decreases |sets|
  {
    if sets != [] {
      StripCharsKeeps(s, sets[0]);
      StripEachKeeps(s, sets[1..]);
    }
  }

  /** `StripEach` only removes characters. */
  lemma {:induction false} StripEachOnlyRemoves(s: string, sets: seq<set<char>>, c: char)
    requires c !in s
    ensures c !in StripEach(s, sets)
    decreases |sets|
  {
    if sets != [] {
      StripCharsSub(s, sets[0]);
      StripEachOnlyRemoves(StripChars(s, sets[0]), sets[1..], c);
    }
  }

  /** A subject whose two end characters are none of the stripped ones is its own key. */
  lemma NormSubjectKeepsClean(s: string)
    requires s != [] && !IsSubjectTrim(s[0]) && !IsSubjectTrim(s[|s| - 1])
    ensures NormSubject(s) == s
  {
    assert s[0] !in Whitespace && s[|s| - 1] !in Whitespace;
    StripEachKeeps(s, SubjectStrips);
  }

  /**
   * Trailing dots after a clean subject are dropped: `VSAMFILE.` and
   * `VSAMFILE` share one entry.
   */
  lemma NormSubjectDropsDots(s: string, dots: string)
    requires s != [] && !IsSubjectTrim(s[0]) && !IsSubjectTrim(s[|s| - 1])
    requires forall i :: 0 <= i < |dots| ==> dots[i] == '.'
    ensures NormSubject(s + dots) == s
  {
    SpaceStageKeeps(s, dots);
    DotStageDrops(s, dots);
    StripEachKeeps(s, [DoubleQuote, SingleQuote]);
  }

  /** The whitespace stage leaves a subject alone when neither end is whitespace. */
  lemma SpaceStageKeeps(s: string, dots: string)
    requires s != [] && !IsSubjectTrim(s[0]) && !IsSubjectTrim(s[|s| - 1])
    requires forall i :: 0 <= i < |dots| ==> dots[i] == '.'
    ensures NormSubject(s + dots) == StripEach(s + dots, [Dot, DoubleQuote, SingleQuote])
  {
    var t := s + dots;
    assert t[0] == s[0];
    assert t[|t| - 1] == if dots == [] then s[|s| - 1] else '.';
    assert SubjectStrips[1..] == [Dot, DoubleQuote, SingleQuote];
    StripCharsKeeps(t, Whitespace);
  }

  /** The dot stage removes exactly the trailing dots. */
  lemma DotStageDrops(s: string, dots: string)
    requires s != [] && s[0] != '.' && s[|s| - 1] != '.'
    requires forall i :: 0 <= i < |dots| ==> dots[i] == '.'
    ensures StripEach(s + dots, [Dot, DoubleQuote, SingleQuote]) == StripEach(s, [DoubleQuote, SingleQuote])
  {
    assert [Dot, DoubleQuote, SingleQuote][1..] == [DoubleQuote, SingleQuote];
    StripCharsDropsTail(s, dots, Dot);
  }

  /** Normalising a subject never introduces a character. */
  lemma NormSubjectOnlyRemoves(s: string, c: char)
    requires c !in s
    ensures c !in NormSubject(s)
  {
    StripEachOnlyRemoves(s, SubjectStrips, c);
  }

  /** The count of `op` in an ops map, 0 when absent (`.get(op, 0)`). */
  function OpCount(ops: map<string, nat>, op: string): nat {
    if op in ops then ops[op] else 0
  }

  /** The entry of `k`, or the empty entry `_add_op` creates for a new subject. */
  function EntryOf(d: Subjects, k: string): Entry {
    if k in d then d[k] else Entry(map[], {})
  }

  /** The entry after one more `op` by `program`. */
  function Bumped(e: Entry, op: string, program: string): Entry {
    Entry(e.ops[op := OpCount(e.ops, op) + 1], e.programs + {program})
  }

  /** `d` after `_add_op` on the already normalised key `k`. */
  function Bump(d: Subjects, k: string, op: string, program: string): Subjects {
    d[k := Bumped(EntryOf(d, k), op, program)]
  }

  /** The map after `_add_op(d, subject, op, program)`. */
  function AddedOp(d: Subjects, o: Observation): Subjects {
    Bump(d, NormSubject(o.subject), o.op, o.program)
  }

  /**
   * What one `_add_op` call does: the normalised subject is a key, its count
   * of `op` is one more than before (1 for a new op), `program` joins its
   * programs, and every other op and every other subject is unchanged.
   */
  lemma AddedOpEffect(d: Subjects, o: Observation)
    ensures var r, k := AddedOp(d, o), NormSubject(o.subject);
      && r.Keys == d.Keys + {k}
      && r[k].ops.Keys == EntryOf(d, k).ops.Keys + {o.op}
      && r[k].ops[o.op] == OpCount(EntryOf(d, k).ops, o.op) + 1
      && (forall op :: op in r[k].ops && op != o.op ==> r[k].ops[op] == EntryOf(d, k).ops[op])
      && r[k].programs == EntryOf(d, k).programs + {o.program}
      && (forall k' :: k' in d && k' != k ==> r[k'] == d[k'])
  {
  }

  /** The map after a sequence of `_add_op` calls, in order. */
  function FoldObs(d: Subjects, obs: seq<Observation>): Subjects
    decreases |obs|
  {
    if obs == [] then d else AddedOp(FoldObs(d, obs[..|obs| - 1]), obs[|obs| - 1])
  }

  /** A dictionary that `_add_op` updates in place. */
  class LineageMap {
    var entries: Subjects

    constructor ()
      ensures entries == map[]
    {
      entries := map[];
    }

    /** `_add_op(self, subject, op, program, line)` */
    method AddOp(subject: string, op: string, program: string)
      modifies this
      ensures entries == AddedOp(old(entries), Observation(subject, op, program))
    {
      var key := NormSubject(subject);
      if key !in entries {
        entries := entries[key := Entry(map[], {})];
      }
      var e := entries[key];
      var count := if op in e.ops then e.ops[op] else 0;
      entries := entries[key := Entry(e.ops[op := count + 1], e.programs + {program})];
    }

    /** One `_add_op` call per observation, in order. */
    method AddAll(obs: seq<Observation>)
      modifies this
      ensures entries == FoldObs(old(entries), obs)
    {
      var j := 0;
      while j < |obs|
        invariant 0 <= j <= |obs|
        invariant entries == FoldObs(old(entries), obs[..j])
      {
        assert obs[..j + 1][..j] == obs[..j];
        AddOp(obs[j].subject, obs[j].op, obs[j].program);
        j := j + 1;
      }
      assert obs[..|obs|] == obs;
    }
  }

  // ----- Order independence of the fold -----

  lemma BumpedCommutes(e: Entry, op1: string, p1: string, op2: string, p2: string)
    ensures Bumped(Bumped(e, op1, p1), op2, p2) == Bumped(Bumped(e, op2, p2), op1, p1)
  {
    var x := Bumped(Bumped(e, op1, p1), op2, p2);
    var y := Bumped(Bumped(e, op2, p2), op1, p1);
    assert x.ops == y.ops by {
      assert x.ops.Keys == y.ops.Keys;
      forall op | op in x.ops ensures x.ops[op] == y.ops[op] {
        if op1 == op2 && op == op1 {
          assert x.ops[op] == OpCount(e.ops, op) + 2 == y.ops[op];
        }
      }
    }
  }

  lemma BumpCommutes(d: Subjects, k1: string, op1: string, p1: string, k2: string, op2: string, p2: string)
    ensures Bump(Bump(d, k1, op1, p1), k2, op2, p2) == Bump(Bump(d, k2, op2, p2), k1, op1, p1)
  {
    if k1 == k2 {
      BumpedCommutes(EntryOf(d, k1), op1, p1, op2, p2);
    } else {
      var x := Bump(Bump(d, k1, op1, p1), k2, op2, p2);
      var y := Bump(Bump(d, k2, op2, p2), k1, op1, p1);
      assert x.Keys == y.Keys;
      forall k | k in x ensures x[k] == y[k] { }
    }
  }

  /** Two `_add_op` calls can be made in either order. */
  lemma AddCommutes(d: Subjects, a: Observation, b: Observation)
    ensures AddedOp(AddedOp(d, a), b) == AddedOp(AddedOp(d, b), a)
  {
    BumpCommutes(d, NormSubject(a.subject), a.op, a.program, NormSubject(b.subject), b.op, b.program);
  }

  lemma {:induction false} FoldConcat(d: Subjects, a: seq<Observation>, b: seq<Observation>)
    ensures FoldObs(d, a + b) == FoldObs(FoldObs(d, a), b)
    decreases |b|
  {
    if b == [] {
      assert a + b == a;
    } else {
      assert (a + b)[..|a + b| - 1] == a + b[..|b| - 1];
      FoldConcat(d, a, b[..|b| - 1]);
    }
  }

  /** An observation made first can as well be made last. */
  lemma {:induction false} FoldCommute(d: Subjects, x: Observation, s: seq<Observation>)
    ensures FoldObs(AddedOp(d, x), s) == AddedOp(FoldObs(d, s), x)
    decreases |s|
  {
    if s != [] {
      var init, y := s[..|s| - 1], s[|s| - 1];
      FoldCommute(d, x, init);
      AddCommutes(FoldObs(d, init), x, y);
    }
  }

  /** The maps depend only on the multiset of observations, not their order. */
  lemma {:induction false} FoldPermutation(d: Subjects, s: seq<Observation>, t: seq<Observation>)
    requires multiset(s) == multiset(t)
    ensures FoldObs(d, s) == FoldObs(d, t)
    decreases |s|
  {
    if s == [] {
      EmptyPermutation(t);
    } else {
      var init, x := s[..|s| - 1], s[|s| - 1];
      var i := LastInPermutation(s, t);
      var rest := t[..i] + t[i + 1..];
      FoldPermutation(d, init, rest);
      FoldMoveToEnd(d, t[..i], x, t[i + 1..]);
    }
  }

  /** An observation in the middle of a sequence may as well be made last. */
  lemma FoldMoveToEnd(d: Subjects, u: seq<Observation>, x: Observation, v: seq<Observation>)
    ensures FoldObs(d, u + [x] + v) == AddedOp(FoldObs(d, u + v), x)
  {
    FoldConcat(d, u + [x], v);
    assert (u + [x])[..|u + [x]| - 1] == u;
    FoldCommute(FoldObs(d, u), x, v);
    FoldConcat(d, u, v);
  }

  // ----- _norm_copy_name -----

  /** `name.strip().strip('"').strip("'")`, then the last `/`-separated segment. */
  function CopyBase(name: string): string {
    AfterLast(StripChars(StripChars(Strip(name), DoubleQuote), SingleQuote), '/')
  }

  /** The segment with `.CPY` added unless its upper case already ends in `.CPY` or `.COPYBOOK`. */
  function CopyExtended(base: string): string {
    var ub := Upper(base);
    if EndsWith(ub, ".CPY") || EndsWith(ub, ".COPYBOOK") then base else base + ".CPY"
  }

  /** `(logical, physical)` of a COPY name: `_norm_copy_name(name)`. */
  function NormCopyName(name: string): (string, string) {
    var base := CopyBase(name);
    (Upper(BeforeFirst(base, '.')), Upper(CopyExtended(base)))
  }

  /** An upper-cased name with a copybook extension ensured. */
  function WithCopyExtension(ub: string): string {
    if EndsWith(ub, ".CPY") || EndsWith(ub, ".COPYBOOK") then ub else ub + ".CPY"
  }

  lemma UpperOfExtended(base: string)
    ensures Upper(CopyExtended(base)) == WithCopyExtension(Upper(base))
  {
    var ub := Upper(base);
    if EndsWith(ub, ".CPY") || EndsWith(ub, ".COPYBOOK") {
      assert CopyExtended(base) == base;
    } else {
      assert CopyExtended(base) == base + ".CPY";
      UpperConcat(base, ".CPY");
      UpperIdentity(".CPY");
    }
  }

  lemma WithCopyExtensionShape(ub: string)
    requires '/' !in ub
    ensures var p := WithCopyExtension(ub);
      && '.' in p && '/' !in p
      && (EndsWith(p, ".CPY") || EndsWith(p, ".COPYBOOK"))
      && (p == ub || p == ub + ".CPY")
      && (p == ub <==> EndsWith(ub, ".CPY") || EndsWith(ub, ".COPYBOOK"))
  {
    var p := WithCopyExtension(ub);
    if EndsWith(ub, ".CPY") {
      assert ub[|ub| - 4] == ub[|ub| - 4..][0];
    } else if EndsWith(ub, ".COPYBOOK") {
      assert ub[|ub| - 9] == ub[|ub| - 9..][0];
    } else {
      assert p[|ub|..] == ".CPY";
      assert p[|ub|] == '.';
    }
  }

  /**
   * The logical name is the upper-cased text of the last path segment up to
   * its first dot, so it has neither `.` nor `/` nor a lower-case letter.
   */
  lemma CopyLogicalShape(name: string)
    ensures var logical, base := NormCopyName(name).0, CopyBase(name);
      && '.' !in logical && '/' !in logical
      && (forall i :: 0 <= i < |logical| ==> !IsLowerLetter(logical[i]))
      && |logical| <= |base| && logical == Upper(base[..|logical|])
      && (|logical| == |base| || base[|logical|] == '.')
  {
    var base := CopyBase(name);
    var head := BeforeFirst(base, '.');
    assert head == base[..FirstIndex(base, '.')];
    assert '/' !in head by {
      assert '/' !in base;
      assert forall c :: c in head ==> c in base;
    }
    UpperKeepsNonLetter(head, '.');
    UpperKeepsNonLetter(head, '/');
  }

  /**
   * The physical name is the whole last path segment upper-cased, with
   * `.CPY` added unless it already ends in `.CPY` or `.COPYBOOK`; so it
   * always has a `.`, a copybook extension and no `/`.
   */
  lemma CopyPhysicalShape(name: string)
    ensures var physical, base := NormCopyName(name).1, CopyBase(name);
      && '.' in physical && '/' !in physical
      && (EndsWith(physical, ".CPY") || EndsWith(physical, ".COPYBOOK"))
      && (physical == Upper(base) || physical == Upper(base) + ".CPY")
      && (physical == Upper(base) <==>
            EndsWith(Upper(base), ".CPY") || EndsWith(Upper(base), ".COPYBOOK"))
  {
    var base := CopyBase(name);
    assert '/' !in base;
    UpperKeepsNonLetter(base, '/');
    UpperOfExtended(base);
    WithCopyExtensionShape(Upper(base));
  }

  /** The key `_add_op` files a COPY under, for the logical or the physical name. */
  function CopyKey(name: string): string {
    NormSubject("COPYBOOK:" + name)
  }

  /**
   * The two entries a COPY match credits are always distinct: the physical
   * key keeps its `.`, the logical key never has one.
   */
  lemma CopyKeysDistinct(name: string)
    ensures CopyKey(NormCopyName(name).0) != CopyKey(NormCopyName(name).1)
  {
    CopyLogicalShape(name);
    CopyPhysicalShape(name);
    CopyKeysDiffer(NormCopyName(name).0, NormCopyName(name).1);
  }

  lemma CopyKeysDiffer(logical: string, physical: string)
    requires '.' !in logical && '.' in physical
    requires EndsWith(physical, ".CPY") || EndsWith(physical, ".COPYBOOK")
    ensures CopyKey(logical) != CopyKey(physical)
  {
    LogicalKeyHasNoDot(logical);
    PhysicalKeyIsItself(physical);
    assert '.' in CopyKey(physical);
  }

  lemma LogicalKeyHasNoDot(logical: string)
    requires '.' !in logical
    ensures '.' !in CopyKey(logical)
  {
    assert '.' !in "COPYBOOK:" + logical;
    NormSubjectOnlyRemoves("COPYBOOK:" + logical, '.');
  }

  /** A physical copybook name is filed under `COPYBOOK:` and itself, unchanged. */
  lemma PhysicalKeyIsItself(physical: string)
    requires EndsWith(physical, ".CPY") || EndsWith(physical, ".COPYBOOK")
    ensures CopyKey(physical) == "COPYBOOK:" + physical
  {
    var pk := "COPYBOOK:" + physical;
    var last := physical[|physical| - 1];
    assert last == 'Y' || last == 'K' by {
      if EndsWith(physical, ".CPY") {
        assert last == physical[|physical| - 4..][3];
      } else {
        assert last == physical[|physical| - 9..][8];
      }
    }
    assert pk[|pk| - 1] == last && pk[0] == 'C';
    NormSubjectKeepsClean(pk);
  }

  /**
   * A COPY name captured with the statement's closing period (the name class
   * of `RE_COPY` includes `.`): the logical name loses the period, but the
   * physical name keeps it before the added `.CPY`.
   */
  lemma CopyWithTrailingDot(stem: string)
    requires stem != [] && !IsSubjectTrim(stem[0])
    requires '.' !in stem && '/' !in stem
    requires forall i :: 0 <= i < |stem| ==> !IsLowerLetter(stem[i])
    ensures NormCopyName(stem + ".") == (stem, stem + "..CPY")
    ensures CopyKey(NormCopyName(stem + ".").1) == "COPYBOOK:" + (stem + "..CPY")
  {
    CopyBasePlain(stem + ".");
    DottedLogical(stem);
    DottedPhysical(stem);
    assert stem + "..CPY" == (stem + ".") + ".CPY" by { DotThenExtension(stem); }
    EndsWithAppended(stem + ".", ".CPY");
    PhysicalKeyIsItself(stem + "..CPY");
  }

  /** The logical name of `stem.` is `stem`. */
  lemma DottedLogical(stem: string)
    requires '.' !in stem
    requires forall i :: 0 <= i < |stem| ==> !IsLowerLetter(stem[i])
    ensures Upper(BeforeFirst(stem + ".", '.')) == stem
  {
    FirstIndexOfPartThenSep(stem, ".", '.');
    UpperIdentity(stem);
  }

  /** `stem.` has no copybook extension, so `.CPY` is added after its period. */
  lemma DottedPhysical(stem: string)
    requires forall i :: 0 <= i < |stem| ==> !IsLowerLetter(stem[i])
    ensures Upper(CopyExtended(stem + ".")) == stem + "..CPY"
  {
    var name := stem + ".";
    NoLowerDotted(stem);
    UpperIdentity(name);
    assert !EndsWith(name, ".CPY") by { assert name[|name| - 1] == '.'; }
    assert !EndsWith(name, ".COPYBOOK") by { assert name[|name| - 1] == '.'; }
    assert CopyExtended(name) == name + ".CPY";
    UpperConcat(name, ".CPY");
    CpyExtensionUpper();
    DotThenExtension(stem);
  }

  lemma NoLowerDotted(stem: string)
    requires forall i :: 0 <= i < |stem| ==> !IsLowerLetter(stem[i])
    ensures forall i :: 0 <= i < |stem + "."| ==> !IsLowerLetter((stem + ".")[i])
  {
  }

  lemma CpyExtensionUpper()
    ensures Upper(".CPY") == ".CPY"
  {
    UpperIdentity(".CPY");
  }

  lemma DotThenExtension(stem: string)
    ensures (stem + ".") + ".CPY" == stem + "..CPY"
  {
    assert "." + ".CPY" == "..CPY";
  }

  /** A name with no `/` and nothing to strip at its ends is its own last segment. */
  lemma CopyBasePlain(name: string)
    requires name != [] && !IsSubjectTrim(name[0]) && name[|name| - 1] == '.' && '/' !in name
    ensures CopyBase(name) == name
  {
    assert !IsSpace('.');
    StripCharsKeeps(name, Whitespace);
    StripCharsKeeps(name, DoubleQuote);
    StripCharsKeeps(name, SingleQuote);
    LastRunAbsent(name, '/');
  }

  /** `COPY CUSTMAST.` credits `COPYBOOK:CUSTMAST` and `COPYBOOK:CUSTMAST..CPY`. */
  lemma CustmastCopyKeys()
    ensures NormCopyName(Upper("CUSTMAST.")).1 == "CUSTMAST..CPY"
    ensures CopyKey(NormCopyName(Upper("CUSTMAST.")).1) == "COPYBOOK:CUSTMAST..CPY"
  {
    var stem := "CUSTMAST";
    assert forall i :: 0 <= i < |stem| ==> IsUpperLetter(stem[i]);
    assert Upper("CUSTMAST.") == stem + "." by {
      UpperIdentity("CUSTMAST.");
    }
    CopyWithTrailingDot(stem);
    CustmastSpelling();
  }

  lemma CustmastSpelling()
    ensures "CUSTMAST" + "..CPY" == "CUSTMAST..CPY"
    ensures "COPYBOOK:" + ("CUSTMAST" + "..CPY") == "COPYBOOK:CUSTMAST..CPY"
  {
  }

  // ----- Extraction: one construct at a time -----

  /** The observations of a pattern whose group 1 is the subject. */
  function Tagged(subjects: seq<string>, op: string, program: string): (r: seq<Observation>)
    ensures |r| == |subjects|
    ensures forall i :: 0 <= i < |r| ==> r[i] == Observation(subjects[i], op, program)
  {
    seq(|subjects|, i requires 0 <= i < |subjects| => Observation(subjects[i], op, program))
  }

  function SqlVerbName(v: SqlVerb): string {
    match v
    case SqlSelect => "SELECT"
    case SqlInsert => "INSERT"
    case SqlUpdate => "UPDATE"
    case SqlDelete => "DELETE"
  }

  function CicsVerbName(v: CicsVerb): string {
    match v
    case CicsRead => "READ"
    case CicsRewrite => "REWRITE"
    case CicsWrite => "WRITE"
    case CicsDelete => "DELETE"
  }

  function MqVerbName(v: MqVerb): string {
    match v
    case MqPut => "PUT"
    case MqGet => "GET"
    case MqOpen => "OPEN"
    case MqClose => "CLOSE"
  }

  /** `s.replace(old, new)` for single characters. */
  function ReplaceChar(s: string, from: char, to: char): (r: string)
    ensures |r| == |s|
    ensures forall i :: 0 <= i < |s| ==> r[i] == if s[i] == from then to else s[i]
  {
    seq(|s|, i requires 0 <= i < |s| => if s[i] == from then to else s[i])
  }

  /** `tm.group(1) or tm.group(2)` */
  function TargetName(t: (string, string)): string {
    if t.0 != "" then t.0 else t.1
  }

  /** `tbl.replace('\n', ' ').strip()` */
  function TableSubject(tbl: string): string {
    Strip(ReplaceChar(tbl, '\n', ' '))
  }

  /** The table names of a block's `FROM`/`INTO` matches, in order, the empty ones skipped. */
  function TableNames(targets: seq<(string, string)>): (names: seq<string>)
    ensures |names| <= |targets|
    ensures forall k :: 0 <= k < |names| ==> names[k] != ""
    ensures forall i :: 0 <= i < |targets| && TargetName(targets[i]) != "" ==> TargetName(targets[i]) in names
    decreases |targets|
  {
    if targets == [] then []
    else
      var init := TableNames(targets[..|targets| - 1]);
      var tbl := TargetName(targets[|targets| - 1]);
      assert forall i :: 0 <= i < |targets| - 1 ==> targets[..|targets| - 1][i] == targets[i];
      if tbl == "" then init else init + [tbl]
  }

  /** The table capture of every `FROM`/`INTO` match, empty ones included. */
  function Captures(targets: seq<(string, string)>): (r: seq<string>)
    ensures |r| == |targets|
    ensures forall i :: 0 <= i < |targets| ==> r[i] == TargetName(targets[i])
  {
    seq(|targets|, i requires 0 <= i < |targets| => TargetName(targets[i]))
  }

  /**
   * The table names are the captures with the empty ones dropped: each
   * non-empty name occurs as often as it was captured, the empty one never.
   */
  lemma {:induction false} TableNamesFilter(targets: seq<(string, string)>)
    ensures multiset(TableNames(targets)) == multiset(Captures(targets))["" := 0]
    decreases |targets|
  {
    if targets != [] {
      var init := targets[..|targets| - 1];
      var tbl := TargetName(targets[|targets| - 1]);
      TableNamesFilter(init);
      CapturesSnoc(targets);
      var m := multiset(Captures(init));
      assert multiset(Captures(targets)) == m + multiset{tbl};
      if tbl == "" {
        assert (m + multiset{tbl})["" := 0] == m["" := 0];
      } else {
        assert (m + multiset{tbl})["" := 0] == m["" := 0] + multiset{tbl};
      }
    }
  }

  lemma CapturesSnoc(targets: seq<(string, string)>)
    requires targets != []
    ensures Captures(targets) == Captures(targets[..|targets| - 1]) + [TargetName(targets[|targets| - 1])]
  {
  }

  /**
   * One SQL block's observations: only the first verb counts, every
   * non-empty `FROM`/`INTO` target gets it, and a block with no verb adds
   * nothing.
   */
  function BlockObservations(b: SqlBlock, program: string): (r: seq<Observation>)
    ensures b.verbs == [] ==> r == []
    ensures b.verbs != [] ==> |r| == |TableNames(b.targets)|
    ensures b.verbs != [] ==> forall k :: 0 <= k < |r| ==>
      r[k] == Observation(TableSubject(TableNames(b.targets)[k]), SqlVerbName(b.verbs[0]), program)
  {
    if b.verbs == [] then []
    else
      var names := TableNames(b.targets);
      seq(|names|, k requires 0 <= k < |names| => Observation(TableSubject(names[k]), SqlVerbName(b.verbs[0]), program))
  }

  function SqlObservations(blocks: seq<SqlBlock>, program: string): seq<Observation>
    decreases |blocks|
  {
    if blocks == [] then []
    else SqlObservations(blocks[..|blocks| - 1], program) + BlockObservations(blocks[|blocks| - 1], program)
  }

  /** `_norm_copy_name(m.group(1).upper())` for every COPY match. */
  function CopyNames(copies: seq<string>): (names: seq<(string, string)>)
    ensures |names| == |copies|
    ensures forall i :: 0 <= i < |copies| ==> names[i] == NormCopyName(Upper(copies[i]))
  {
    seq(|copies|, i requires 0 <= i < |copies| => NormCopyName(Upper(copies[i])))
  }

  /** Two observations per COPY match: `COPYBOOK:<logical>`, then `COPYBOOK:<physical>`. */
  function CopyObservations(names: seq<(string, string)>, program: string): (r: seq<Observation>)
    ensures |r| == 2 * |names|
    ensures forall i :: 0 <= i < |names| ==>
      r[2 * i] == Observation("COPYBOOK:" + names[i].0, "COPY", program)
      && r[2 * i + 1] == Observation("COPYBOOK:" + names[i].1, "COPY", program)
  {
    seq(2 * |names|, k requires 0 <= k < 2 * |names| =>
      Observation("COPYBOOK:" + (if k % 2 == 0 then names[k / 2].0 else names[k / 2].1), "COPY", program))
  }

  /** `m.group(3).strip(" '\"")` credited with `CICS_<verb>`. */
  function CicsObservations(calls: seq<CicsCall>, program: string): (r: seq<Observation>)
    ensures |r| == |calls|
    ensures forall i :: 0 <= i < |calls| ==>
      r[i] == Observation(StripChars(calls[i].name, {' ', '\'', '"'}), "CICS_" + CicsVerbName(calls[i].verb), program)
  {
    seq(|calls|, i requires 0 <= i < |calls| =>
      Observation(StripChars(calls[i].name, {' ', '\'', '"'}), "CICS_" + CicsVerbName(calls[i].verb), program))
  }

  /** Every MQ call credits the literal subject `MQ`. */
  function MqObservations(calls: seq<MqVerb>, program: string): (r: seq<Observation>)
    ensures |r| == |calls|
    ensures forall i :: 0 <= i < |r| ==>
      r[i].subject == "MQ" && r[i].op == "MQ" + MqVerbName(calls[i]) && r[i].program == program
  {
    seq(|calls|, i requires 0 <= i < |calls| => Observation("MQ", "MQ" + MqVerbName(calls[i]), program))
  }

  /** `SELECT x ASSIGN TO dd` credits `LOGICAL:x` with `ASSIGN:<dd without quotes and spaces>`. */
  function SelectAssignObservations(pairs: seq<(string, string)>, program: string): (r: seq<Observation>)
    ensures |r| == |pairs|
    ensures forall i :: 0 <= i < |pairs| ==>
      r[i] == Observation("LOGICAL:" + pairs[i].0, "ASSIGN:" + StripChars(pairs[i].1, {'\'', '"', ' '}), program)
  {
    seq(|pairs|, i requires 0 <= i < |pairs| =>
      Observation("LOGICAL:" + pairs[i].0, "ASSIGN:" + StripChars(pairs[i].1, {'\'', '"', ' '}), program))
  }

  /** `//step DD DSN=dsn` credits `DSN:<dsn>` with `JCL_DD`. */
  function JclObservations(dsns: seq<string>, program: string): (r: seq<Observation>)
    ensures |r| == |dsns|
    ensures forall i :: 0 <= i < |dsns| ==> r[i] == Observation("DSN:" + dsns[i], "JCL_DD", program)
  {
    seq(|dsns|, i requires 0 <= i < |dsns| => Observation("DSN:" + dsns[i], "JCL_DD", program))
  }

  /** The `files` observations of one chunk, in the order `analyze_session` makes them. */
  function FileObservations(m: ChunkMatches, program: string): seq<Observation> {
    Tagged(m.fileAssigns, "ASSIGN", program)
    + Tagged(m.fds, "FD", program)
    + Tagged(m.readFiles, "READ", program)
    + Tagged(m.writeFiles, "WRITE", program)
    + Tagged(m.rewriteFiles, "REWRITE", program)
    + Tagged(m.deleteFiles, "DELETE", program)
    + CopyObservations(CopyNames(m.copies), program)
    + CicsObservations(m.cics, program)
    + MqObservations(m.mqCalls, program)
    + Tagged(m.xmlGenerates, "XML_GENERATE", program)
    + Tagged(m.xmlParses, "XML_PARSE", program)
    + SelectAssignObservations(m.selectAssigns, program)
    + JclObservations(m.jclDsns, program)
  }

  /** The file-name markers of the chunks that are scanned. */
  const ScannedMarkers: seq<string> := [".cbl", ".cob", ".cpy", ".jcl", ".cics", "db2:"]

  /** `any(x in filename.lower() for x in [...])` */
  predicate IsScanned(filename: string) {
    exists i :: 0 <= i < |ScannedMarkers| && Contains(Lower(filename), ScannedMarkers[i])
  }

  /** The `files` observations of one row; none when its file name is filtered out. */
  function RowFileObs(row: ScannedChunk): (r: seq<Observation>)
    ensures !IsScanned(row.filename) ==> r == []
  {
    if IsScanned(row.filename) then FileObservations(row.matches, row.filename) else []
  }

  /** The `tables` observations of one row; none when its file name is filtered out. */
  function RowTableObs(row: ScannedChunk): (r: seq<Observation>)
    ensures !IsScanned(row.filename) ==> r == []
  {
    if IsScanned(row.filename) then SqlObservations(row.matches.sqlBlocks, row.filename) else []
  }

  /** The observations of all rows, row after row. */
  function FlatMap(rows: seq<ScannedChunk>, f: ScannedChunk -> seq<Observation>): seq<Observation>
    decreases |rows|
  {
    if rows == [] then [] else FlatMap(rows[..|rows| - 1], f) + f(rows[|rows| - 1])
  }

  lemma {:induction false} FlatMapConcat(a: seq<ScannedChunk>, b: seq<ScannedChunk>, f: ScannedChunk -> seq<Observation>)
    ensures FlatMap(a + b, f) == FlatMap(a, f) + FlatMap(b, f)
    decreases |b|
  {
    if b == [] {
      assert a + b == a;
    } else {
      assert (a + b)[..|a + b| - 1] == a + b[..|b| - 1];
      FlatMapConcat(a, b[..|b| - 1], f);
    }
  }

  /** Reordering the rows reorders their observations and nothing more. */
  lemma {:induction false} FlatMapPermutation(a: seq<ScannedChunk>, b: seq<ScannedChunk>, f: ScannedChunk -> seq<Observation>)
    requires multiset(a) == multiset(b)
    ensures multiset(FlatMap(a, f)) == multiset(FlatMap(b, f))
    decreases |a|
  {
    if a == [] {
      EmptyPermutation(b);
    } else {
      var init, x := a[..|a| - 1], a[|a| - 1];
      var i := LastInPermutation(a, b);
      var rest := b[..i] + b[i + 1..];
      FlatMapPermutation(init, rest, f);
      FlatMapConcat(b[..i] + [x], b[i + 1..], f);
      FlatMapConcat(b[..i], [x], f);
      FlatMapConcat(b[..i], b[i + 1..], f);
      assert FlatMap([x], f) == f(x) by {
        assert [x][..0] == [];
      }
    }
  }

  /** The `files` map of a session before finalisation. */
  function SessionFiles(rows: seq<ScannedChunk>): Subjects {
    FoldObs(map[], FlatMap(rows, RowFileObs))
  }

  /** The `tables` map of a session before finalisation. */
  function SessionTables(rows: seq<ScannedChunk>): Subjects {
    FoldObs(map[], FlatMap(rows, RowTableObs))
  }

  // ----- finalize -----

  /** `finalize(d)`: the same keys and ops, each program set as a sorted list. */
  ghost function Finalized(d: Subjects): (out: map<string, FinalEntry>)
    ensures out.Keys == d.Keys
    ensures forall k :: k in d ==>
      out[k].ops == d[k].ops && StrictlySorted(out[k].programs) && SetOf(out[k].programs) == d[k].programs
  {
    map k | k in d :: FinalEntry(d[k].ops, SortedSet(d[k].programs))
  }

  /** The report `analyze_session` returns for these rows. */
  ghost function SessionReport(rows: seq<ScannedChunk>): LineageReport {
    LineageReport(Finalized(SessionFiles(rows)), Finalized(SessionTables(rows)))
  }

  /** `finalize(d)`, one subject at a time. */
  method Finalize(d: Subjects) returns (out: map<string, FinalEntry>)
    ensures out == Finalized(d)
  {
    out := map[];
    var todo := d.Keys;
    while todo != {}
      invariant todo <= d.Keys
      invariant out.Keys == d.Keys - todo
      invariant forall k :: k in out ==> out[k] == FinalEntry(d[k].ops, SortedSet(d[k].programs))
      decreases |todo|
    {
      var k :| k in todo;
      var programs := SortSet(d[k].programs);
      out := out[k := FinalEntry(d[k].ops, programs)];
      todo := todo - {k};
    }
    FinalizedPointwise(d, out);
  }

  /** A map that agrees with `Finalized(d)` key by key is `Finalized(d)`. */
  lemma FinalizedPointwise(d: Subjects, out: map<string, FinalEntry>)
    requires out.Keys == d.Keys
    requires forall k :: k in out ==> out[k] == FinalEntry(d[k].ops, SortedSet(d[k].programs))
    ensures out == Finalized(d)
  {
    var f := Finalized(d);
    assert forall k :: k in f ==> f[k] == FinalEntry(d[k].ops, SortedSet(d[k].programs));
  }

  // ----- analyze_session -----

  /** `analyze_session`: scan the rows in order and finalise both maps. */
  method AnalyzeSession(rows: seq<ScannedChunk>) returns (report: LineageReport)
    ensures report == SessionReport(rows)
  {
    var files := new LineageMap();
    var tables := new LineageMap();
    var i := 0;
    while i < |rows|
      invariant 0 <= i <= |rows|
      invariant files != tables
      invariant files.entries == FoldObs(map[], FlatMap(rows[..i], RowFileObs))
      invariant tables.entries == FoldObs(map[], FlatMap(rows[..i], RowTableObs))
    {
      var row := rows[i];
      assert rows[..i + 1] == rows[..i] + [row];
      assert rows[..i + 1][..i] == rows[..i];
      FoldConcat(map[], FlatMap(rows[..i], RowFileObs), RowFileObs(row));
      FoldConcat(map[], FlatMap(rows[..i], RowTableObs), RowTableObs(row));
      if IsScanned(row.filename) {
        files.AddAll(FileObservations(row.matches, row.filename));
        tables.AddAll(SqlObservations(row.matches.sqlBlocks, row.filename));
      } else {
        assert FoldObs(files.entries, []) == files.entries;
        assert FoldObs(tables.entries, []) == tables.entries;
      }
      i := i + 1;
    }
    assert rows[..|rows|] == rows;
    var f := Finalize(files.entries);
    var t := Finalize(tables.entries);
    report := LineageReport(f, t);
  }

  // ----- Properties of the scan -----

  /** The report does not depend on the order in which rows are processed. */
  lemma SessionOrderIndependent(rows1: seq<ScannedChunk>, rows2: seq<ScannedChunk>)
    requires multiset(rows1) == multiset(rows2)
    ensures SessionReport(rows1) == SessionReport(rows2)
  {
    FlatMapPermutation(rows1, rows2, RowFileObs);
    FoldPermutation(map[], FlatMap(rows1, RowFileObs), FlatMap(rows2, RowFileObs));
    FlatMapPermutation(rows1, rows2, RowTableObs);
    FoldPermutation(map[], FlatMap(rows1, RowTableObs), FlatMap(rows2, RowTableObs));
  }

  /** A row whose file name carries none of the markers leaves both maps unchanged. */
  lemma {:induction false} FilteredRowChangesNothing(rows: seq<ScannedChunk>, row: ScannedChunk)
    requires !IsScanned(row.filename)
    ensures SessionFiles(rows + [row]) == SessionFiles(rows)
    ensures SessionTables(rows + [row]) == SessionTables(rows)
  {
    assert (rows + [row])[..|rows + [row]| - 1] == rows;
    assert FlatMap(rows + [row], RowFileObs) == FlatMap(rows, RowFileObs);
    assert FlatMap(rows + [row], RowTableObs) == FlatMap(rows, RowTableObs);
  }

  /** The two observations of one COPY match are folded in as two bumps of `COPY`. */
  lemma CopyPairFold(d: Subjects, logical: string, physical: string, program: string)
    ensures FoldObs(d, CopyObservations([(logical, physical)], program))
      == Bump(Bump(d, CopyKey(logical), "COPY", program), CopyKey(physical), "COPY", program)
  {
    var obs := CopyObservations([(logical, physical)], program);
    var lo := Observation("COPYBOOK:" + logical, "COPY", program);
    var po := Observation("COPYBOOK:" + physical, "COPY", program);
    assert obs == [lo, po];
    assert obs[..1] == [lo];
    assert [lo][..0] == [];
    assert FoldObs(d, [lo]) == AddedOp(d, lo);
  }

  /**
   * A COPY match credits `COPY` once on each of two distinct keys, the
   * logical and the physical copybook name, and adds the program to both.
   */
  lemma CopyCreditsBoth(d: Subjects, name: string, program: string)
    ensures var names := NormCopyName(Upper(name));
      && CopyKey(names.0) != CopyKey(names.1)
      && FoldObs(d, CopyObservations(CopyNames([name]), program))
         == Bump(Bump(d, CopyKey(names.0), "COPY", program), CopyKey(names.1), "COPY", program)
  {
    var names := NormCopyName(Upper(name));
    assert CopyNames([name]) == [names];
    CopyKeysDistinct(Upper(name));
    CopyPairFold(d, names.0, names.1, program);
  }

  /** Two bumps of the same op on two distinct keys each add exactly one. */
  lemma TwoBumps(d: Subjects, k1: string, k2: string, op: string, program: string)
    requires k1 != k2
    ensures var r := Bump(Bump(d, k1, op, program), k2, op, program);
      && r.Keys == d.Keys + {k1, k2}
      && r[k1].ops[op] == OpCount(EntryOf(d, k1).ops, op) + 1
      && r[k2].ops[op] == OpCount(EntryOf(d, k2).ops, op) + 1
      && program in r[k1].programs && program in r[k2].programs
  {
  }

  /**
   * MQ calls are all credited to the literal subject `MQ`: it is a key
   * afterwards, and no other subject changes.
   */
  lemma MqCreditsLiteralSubject(d: Subjects, calls: seq<MqVerb>, program: string)
    requires calls != []
    ensures var r := FoldObs(d, MqObservations(calls, program));
      && "MQ" in r
      && r.Keys == d.Keys + {"MQ"}
      && forall k :: k in d && k != "MQ" ==> r[k] == d[k]
  {
    var obs := MqObservations(calls, program);
    assert forall i :: 0 <= i < |obs| ==> obs[i].subject == "MQ";
    assert NormSubject("MQ") == "MQ" by { NormSubjectKeepsClean("MQ"); }
    FoldWithinKeys(d, obs, {"MQ"});
    FoldLastKey(d, obs);
  }

  /**
   * A fold whose observations all normalise into `keys` adds no key outside
   * `keys` and leaves every entry outside `keys` as it was.
   */
  lemma {:induction false} FoldWithinKeys(d: Subjects, obs: seq<Observation>, keys: set<string>)
    requires forall i :: 0 <= i < |obs| ==> NormSubject(obs[i].subject) in keys
    ensures var r := FoldObs(d, obs);
      && r.Keys <= d.Keys + keys
      && d.Keys <= r.Keys
      && forall k :: k in d && k !in keys ==> r[k] == d[k]
    decreases |obs|
  {
    if obs != [] {
      FoldWithinKeys(d, obs[..|obs| - 1], keys);
    }
  }

  /** The subject of the last observation is a key after the fold. */
  lemma FoldLastKey(d: Subjects, obs: seq<Observation>)
    requires obs != []
    ensures NormSubject(obs[|obs| - 1].subject) in FoldObs(d, obs)
  {
  }

  // ----- What a fold does to one key -----

  /** How many of the observations file `op` under the key `k`. */
  function CountObs(obs: seq<Observation>, k: string, op: string): nat
    decreases |obs|
  {
    if obs == [] then 0
    else
      var o := obs[|obs| - 1];
      CountObs(obs[..|obs| - 1], k, op) + (if NormSubject(o.subject) == k && o.op == op then 1 else 0)
  }

  /** The programs of the observations filed under `k`. */
  function ProgramsOf(obs: seq<Observation>, k: string): set<string>
    decreases |obs|
  {
    if obs == [] then {}
    else
      var o := obs[|obs| - 1];
      ProgramsOf(obs[..|obs| - 1], k) + (if NormSubject(o.subject) == k then {o.program} else {})
  }

  /** The keys the observations are filed under. */
  function KeysOf(obs: seq<Observation>): set<string>
    decreases |obs|
  {
    if obs == [] then {} else KeysOf(obs[..|obs| - 1]) + {NormSubject(obs[|obs| - 1].subject)}
  }

  /** One `_add_op` call, seen from one key and one op. */
  lemma AddedOpAt(d: Subjects, o: Observation, k: string, op: string)
    ensures var r, hit := AddedOp(d, o), NormSubject(o.subject) == k;
      && (k in r <==> k in d || hit)
      && OpCount(EntryOf(r, k).ops, op) == OpCount(EntryOf(d, k).ops, op) + (if hit && o.op == op then 1 else 0)
      && (op in EntryOf(r, k).ops <==> op in EntryOf(d, k).ops || (hit && o.op == op))
      && EntryOf(r, k).programs == EntryOf(d, k).programs + (if hit then {o.program} else {})
      && (!hit ==> EntryOf(r, k) == EntryOf(d, k))
  {
  }

  /**
   * A whole fold, seen from one key and one op: the count of `op` grows by
   * the number of observations filing `op` under `k`, the programs by theirs,
   * and a key no observation is filed under keeps its entry.
   */
  lemma {:induction false} FoldAt(d: Subjects, obs: seq<Observation>, k: string, op: string)
    ensures var r := FoldObs(d, obs);
      && (k in r <==> k in d || k in KeysOf(obs))
      && OpCount(EntryOf(r, k).ops, op) == OpCount(EntryOf(d, k).ops, op) + CountObs(obs, k, op)
      && (op in EntryOf(r, k).ops <==> op in EntryOf(d, k).ops || CountObs(obs, k, op) > 0)
      && EntryOf(r, k).programs == EntryOf(d, k).programs + ProgramsOf(obs, k)
      && (k !in KeysOf(obs) ==> EntryOf(r, k) == EntryOf(d, k))
    decreases |obs|
  {
    if obs != [] {
      var init := obs[..|obs| - 1];
      FoldAt(d, init, k, op);
      AddedOpAt(FoldObs(d, init), obs[|obs| - 1], k, op);
    }
  }

  /** A key is filed under exactly when some program is recorded for it. */
  lemma {:induction false} KeysOfPrograms(obs: seq<Observation>, k: string)
    ensures k in KeysOf(obs) <==> ProgramsOf(obs, k) != {}
    decreases |obs|
  {
    if obs != [] {
      KeysOfPrograms(obs[..|obs| - 1], k);
    }
  }

  // ----- Credits of the single-group patterns -----

  /** How many of the subjects normalise to the key `k`. */
  function CountKey(subjects: seq<string>, k: string): nat
    decreases |subjects|
  {
    if subjects == [] then 0
    else CountKey(subjects[..|subjects| - 1], k) + (if NormSubject(subjects[|subjects| - 1]) == k then 1 else 0)
  }

  lemma {:induction false} TaggedAt(subjects: seq<string>, op: string, program: string, k: string, op2: string)
    ensures CountObs(Tagged(subjects, op, program), k, op2) == if op2 == op then CountKey(subjects, k) else 0
    ensures ProgramsOf(Tagged(subjects, op, program), k) == if CountKey(subjects, k) > 0 then {program} else {}
    decreases |subjects|
  {
    if subjects != [] {
      var n := |subjects|;
      assert Tagged(subjects, op, program)[..n - 1] == Tagged(subjects[..n - 1], op, program);
      TaggedAt(subjects[..n - 1], op, program, k, op2);
    }
  }

  /**
   * Folding the matches of one single-group pattern (ASSIGN, FD, READ,
   * WRITE, REWRITE, DELETE, XML GENERATE, XML PARSE) adds `op` to a key once
   * per match normalising to it, records the program there, and leaves
   * every other op and every key without a match as it was.
   */
  lemma TaggedCredits(d: Subjects, subjects: seq<string>, op: string, program: string, k: string, op2: string)
    ensures var r, n := FoldObs(d, Tagged(subjects, op, program)), CountKey(subjects, k);
      && (k in r <==> k in d || n > 0)
      && OpCount(EntryOf(r, k).ops, op2) == OpCount(EntryOf(d, k).ops, op2) + (if op2 == op then n else 0)
      && EntryOf(r, k).programs == EntryOf(d, k).programs + (if n > 0 then {program} else {})
      && (n == 0 ==> EntryOf(r, k) == EntryOf(d, k))
  {
    var obs := Tagged(subjects, op, program);
    FoldAt(d, obs, k, op2);
    TaggedAt(subjects, op, program, k, op2);
    KeysOfPrograms(obs, k);
  }

  // ----- Credits of an SQL block -----

  /** How many `FROM`/`INTO` captures are non-empty and file their table under `k`. */
  function TargetCount(targets: seq<(string, string)>, k: string): nat
    decreases |targets|
  {
    if targets == [] then 0
    else
      var tbl := TargetName(targets[|targets| - 1]);
      TargetCount(targets[..|targets| - 1], k) + (if tbl != "" && NormSubject(TableSubject(tbl)) == k then 1 else 0)
  }

  /** `tbl.replace('\n', ' ').strip()` for each name. */
  function TableSubjects(names: seq<string>): (r: seq<string>)
    ensures |r| == |names|
    ensures forall i :: 0 <= i < |names| ==> r[i] == TableSubject(names[i])
  {
    seq(|names|, i requires 0 <= i < |names| => TableSubject(names[i]))
  }

  lemma BlockIsTagged(b: SqlBlock, program: string)
    requires b.verbs != []
    ensures BlockObservations(b, program) == Tagged(TableSubjects(TableNames(b.targets)), SqlVerbName(b.verbs[0]), program)
  {
  }

  lemma {:induction false} TableKeysCount(targets: seq<(string, string)>, k: string)
    ensures CountKey(TableSubjects(TableNames(targets)), k) == TargetCount(targets, k)
    decreases |targets|
  {
    if targets != [] {
      var init := targets[..|targets| - 1];
      var tbl := TargetName(targets[|targets| - 1]);
      TableKeysCount(init, k);
      if tbl != "" {
        TableSubjectsSnoc(TableNames(init), tbl);
        CountKeySnoc(TableSubjects(TableNames(init)), TableSubject(tbl), k);
      }
    }
  }

  lemma TableSubjectsSnoc(names: seq<string>, x: string)
    ensures TableSubjects(names + [x]) == TableSubjects(names) + [TableSubject(x)]
  {
  }

  lemma CountKeySnoc(subjects: seq<string>, x: string, k: string)
    ensures CountKey(subjects + [x], k) == CountKey(subjects, k) + (if NormSubject(x) == k then 1 else 0)
  {
    assert (subjects + [x])[..|subjects|] == subjects;
  }

  /**
   * Folding one SQL block: with no verb nothing changes; otherwise the
   * block's first verb is counted once for every non-empty `FROM`/`INTO`
   * capture whose table normalises to `k`, and no other op moves.
   */
  lemma BlockCredits(d: Subjects, b: SqlBlock, program: string, k: string, op: string)
    ensures var r, n := FoldObs(d, BlockObservations(b, program)), if b.verbs == [] then 0 else TargetCount(b.targets, k);
      && (k in r <==> k in d || n > 0)
      && OpCount(EntryOf(r, k).ops, op) == OpCount(EntryOf(d, k).ops, op) + (if b.verbs != [] && op == SqlVerbName(b.verbs[0]) then n else 0)
      && EntryOf(r, k).programs == EntryOf(d, k).programs + (if n > 0 then {program} else {})
      && (n == 0 ==> EntryOf(r, k) == EntryOf(d, k))
  {
    if b.verbs == [] {
      assert BlockObservations(b, program) == [];
    } else {
      BlockIsTagged(b, program);
      TaggedCredits(d, TableSubjects(TableNames(b.targets)), SqlVerbName(b.verbs[0]), program, k, op);
      TableKeysCount(b.targets, k);
    }
  }

  // ----- Credits of one CICS call, SELECT ... ASSIGN pair and DD statement -----

  /** A subject that `_add_op` keeps as it is. */
  predicate CleanSubject(s: string) {
    s != [] && !IsSubjectTrim(s[0]) && !IsSubjectTrim(s[|s| - 1])
  }

  const CicsTrim: set<char> := {' ', '\'', '"'}

  /** The key a CICS call is filed under. */
  function CicsKey(c: CicsCall): string {
    NormSubject(StripChars(c.name, CicsTrim))
  }

  /** The key a `SELECT x ASSIGN TO dd` pair is filed under. */
  function LogicalKey(logical: string): string {
    NormSubject("LOGICAL:" + logical)
  }

  /** The key a `DD DSN=...` statement is filed under. */
  function DsnKey(dsn: string): string {
    NormSubject("DSN:" + dsn)
  }

  /** A prefixed subject whose tail ends cleanly is kept as it is. */
  lemma PrefixedKeyClean(prefix: string, s: string)
    requires prefix != [] && !IsSubjectTrim(prefix[0]) && !IsSubjectTrim(prefix[|prefix| - 1])
    requires s == [] || !IsSubjectTrim(s[|s| - 1])
    ensures NormSubject(prefix + s) == prefix + s
  {
    var t := prefix + s;
    assert t[0] == prefix[0];
    assert t[|t| - 1] == if s == [] then prefix[|prefix| - 1] else s[|s| - 1];
    NormSubjectKeepsClean(t);
  }

  lemma CicsSnoc(calls: seq<CicsCall>, c: CicsCall, program: string)
    ensures CicsObservations(calls + [c], program)
      == CicsObservations(calls, program) + [Observation(StripChars(c.name, CicsTrim), "CICS_" + CicsVerbName(c.verb), program)]
  {
    assert (calls + [c])[|calls|] == c;
  }

  lemma SelectAssignSnoc(pairs: seq<(string, string)>, pr: (string, string), program: string)
    ensures SelectAssignObservations(pairs + [pr], program)
      == SelectAssignObservations(pairs, program) + [Observation("LOGICAL:" + pr.0, "ASSIGN:" + StripChars(pr.1, {'\'', '"', ' '}), program)]
  {
    assert (pairs + [pr])[|pairs|] == pr;
  }

  lemma JclSnoc(dsns: seq<string>, dsn: string, program: string)
    ensures JclObservations(dsns + [dsn], program) == JclObservations(dsns, program) + [Observation("DSN:" + dsn, "JCL_DD", program)]
  {
    assert (dsns + [dsn])[|dsns|] == dsn;
  }

  /**
   * One more observation after `prev`: its key gains one `op` and its
   * program, and nothing else changes.
   */
  lemma FoldOneMore(d: Subjects, prev: seq<Observation>, o: Observation)
    ensures var before, r, k := FoldObs(d, prev), FoldObs(d, prev + [o]), NormSubject(o.subject);
      && r.Keys == before.Keys + {k}
      && OpCount(r[k].ops, o.op) == OpCount(EntryOf(before, k).ops, o.op) + 1
      && (forall op' :: op' != o.op ==> OpCount(r[k].ops, op') == OpCount(EntryOf(before, k).ops, op'))
      && r[k].programs == EntryOf(before, k).programs + {o.program}
      && (forall k' :: k' in before && k' != k ==> r[k'] == before[k'])
  {
    assert (prev + [o])[..|prev|] == prev;
    AddedOpEffect(FoldObs(d, prev), o);
  }

  /**
   * One more CICS call adds one `CICS_<verb>` to the key of its resource
   * name and its program there, and nothing else; a resource name with clean
   * ends is its own key.
   */
  lemma CicsCredits(d: Subjects, calls: seq<CicsCall>, c: CicsCall, program: string)
    ensures var before, r := FoldObs(d, CicsObservations(calls, program)), FoldObs(d, CicsObservations(calls + [c], program));
      var k, op := CicsKey(c), "CICS_" + CicsVerbName(c.verb);
      && r.Keys == before.Keys + {k}
      && OpCount(r[k].ops, op) == OpCount(EntryOf(before, k).ops, op) + 1
      && (forall op' :: op' != op ==> OpCount(r[k].ops, op') == OpCount(EntryOf(before, k).ops, op'))
      && r[k].programs == EntryOf(before, k).programs + {program}
      && (forall k' :: k' in before && k' != k ==> r[k'] == before[k'])
    ensures CleanSubject(c.name) ==> CicsKey(c) == c.name
  {
    var o := Observation(StripChars(c.name, CicsTrim), "CICS_" + CicsVerbName(c.verb), program);
    CicsSnoc(calls, c, program);
    FoldOneMore(d, CicsObservations(calls, program), o);
    if CleanSubject(c.name) {
      CicsKeyClean(c);
    }
  }

  lemma CicsKeyClean(c: CicsCall)
    requires CleanSubject(c.name)
    ensures CicsKey(c) == c.name
  {
    StripCharsKeeps(c.name, CicsTrim);
    NormSubjectKeepsClean(c.name);
  }

  /**
   * One more `SELECT x ASSIGN TO dd` pair adds one `ASSIGN:<dd>` to the key
   * `LOGICAL:x` and its program there, and nothing else; with clean ends
   * the key is `LOGICAL:x` and the op `ASSIGN:dd` exactly.
   */
  lemma SelectAssignCredits(d: Subjects, pairs: seq<(string, string)>, x: string, dd: string, program: string)
    ensures var before, r := FoldObs(d, SelectAssignObservations(pairs, program)), FoldObs(d, SelectAssignObservations(pairs + [(x, dd)], program));
      var k, op := LogicalKey(x), "ASSIGN:" + StripChars(dd, {'\'', '"', ' '});
      && r.Keys == before.Keys + {k}
      && OpCount(r[k].ops, op) == OpCount(EntryOf(before, k).ops, op) + 1
      && (forall op' :: op' != op ==> OpCount(r[k].ops, op') == OpCount(EntryOf(before, k).ops, op'))
      && r[k].programs == EntryOf(before, k).programs + {program}
      && (forall k' :: k' in before && k' != k ==> r[k'] == before[k'])
    ensures x != [] && !IsSubjectTrim(x[|x| - 1]) ==> LogicalKey(x) == "LOGICAL:" + x
    ensures CleanSubject(dd) ==> StripChars(dd, {'\'', '"', ' '}) == dd
  {
    var o := Observation("LOGICAL:" + x, "ASSIGN:" + StripChars(dd, {'\'', '"', ' '}), program);
    SelectAssignSnoc(pairs, (x, dd), program);
    FoldOneMore(d, SelectAssignObservations(pairs, program), o);
    if x != [] && !IsSubjectTrim(x[|x| - 1]) {
      LogicalKeyClean(x);
    }
    if CleanSubject(dd) {
      DdNameClean(dd);
    }
  }

  lemma DdNameClean(dd: string)
    requires CleanSubject(dd)
    ensures StripChars(dd, {'\'', '"', ' '}) == dd
  {
    StripCharsKeeps(dd, {'\'', '"', ' '});
  }

  /**
   * One more `DD DSN=` statement adds one `JCL_DD` to the key `DSN:<dsn>`
   * and its program there, and nothing else; a data set name with a clean
   * end is kept as it is.
   */
  lemma JclCredits(d: Subjects, dsns: seq<string>, dsn: string, program: string)
    ensures var before, r := FoldObs(d, JclObservations(dsns, program)), FoldObs(d, JclObservations(dsns + [dsn], program));
      var k := DsnKey(dsn);
      && r.Keys == before.Keys + {k}
      && OpCount(r[k].ops, "JCL_DD") == OpCount(EntryOf(before, k).ops, "JCL_DD") + 1
      && (forall op' :: op' != "JCL_DD" ==> OpCount(r[k].ops, op') == OpCount(EntryOf(before, k).ops, op'))
      && r[k].programs == EntryOf(before, k).programs + {program}
      && (forall k' :: k' in before && k' != k ==> r[k'] == before[k'])
    ensures dsn != [] && !IsSubjectTrim(dsn[|dsn| - 1]) ==> DsnKey(dsn) == "DSN:" + dsn
  {
    var o := Observation("DSN:" + dsn, "JCL_DD", program);
    JclSnoc(dsns, dsn, program);
    FoldOneMore(d, JclObservations(dsns, program), o);
    if dsn != [] && !IsSubjectTrim(dsn[|dsn| - 1]) {
      DsnKeyClean(dsn);
    }
  }

  lemma LogicalKeyClean(x: string)
    requires x != [] && !IsSubjectTrim(x[|x| - 1])
    ensures LogicalKey(x) == "LOGICAL:" + x
  {
    PrefixedKeyClean("LOGICAL:", x);
  }

  lemma DsnKeyClean(dsn: string)
    requires dsn != [] && !IsSubjectTrim(dsn[|dsn| - 1])
    ensures DsnKey(dsn) == "DSN:" + dsn
  {
    PrefixedKeyClean("DSN:", dsn);
  }

  // ----- Credits of MQ calls -----

  /** How many of the calls use the verb `v`. */
  function MqCount(calls: seq<MqVerb>, v: MqVerb): nat
    decreases |calls|
  {
    if calls == [] then 0 else MqCount(calls[..|calls| - 1], v) + (if calls[|calls| - 1] == v then 1 else 0)
  }

  lemma MqOpsDistinct(v: MqVerb, w: MqVerb)
    requires "MQ" + MqVerbName(v) == "MQ" + MqVerbName(w)
    ensures v == w
  {
    assert MqVerbName(v) == ("MQ" + MqVerbName(v))[2..];
    assert MqVerbName(w) == ("MQ" + MqVerbName(w))[2..];
    assert MqVerbName(v)[0] == MqVerbName(w)[0];
  }

  lemma MqPrefix(calls: seq<MqVerb>, program: string)
    requires calls != []
    ensures MqObservations(calls, program)[..|calls| - 1] == MqObservations(calls[..|calls| - 1], program)
  {
  }

  lemma MqKey()
    ensures NormSubject("MQ") == "MQ"
  {
    NormSubjectKeepsClean("MQ");
  }

  lemma {:induction false} MqCountObs(calls: seq<MqVerb>, v: MqVerb, program: string)
    ensures CountObs(MqObservations(calls, program), "MQ", "MQ" + MqVerbName(v)) == MqCount(calls, v)
    decreases |calls|
  {
    if calls != [] {
      MqCountObs(calls[..|calls| - 1], v, program);
      MqCountStep(calls, v, program);
    }
  }

  lemma MqCountStep(calls: seq<MqVerb>, v: MqVerb, program: string)
    requires calls != []
    ensures CountObs(MqObservations(calls, program), "MQ", "MQ" + MqVerbName(v))
      == CountObs(MqObservations(calls[..|calls| - 1], program), "MQ", "MQ" + MqVerbName(v))
         + (if calls[|calls| - 1] == v then 1 else 0)
  {
    var obs := MqObservations(calls, program);
    var o := obs[|obs| - 1];
    MqPrefix(calls, program);
    MqKey();
    assert NormSubject(o.subject) == "MQ";
    if o.op == "MQ" + MqVerbName(v) {
      MqOpsDistinct(calls[|calls| - 1], v);
    }
  }

  /** Each MQ verb is counted on the subject `MQ` once per call that uses it. */
  lemma MqCountsVerbs(d: Subjects, calls: seq<MqVerb>, v: MqVerb, program: string)
    ensures var r := FoldObs(d, MqObservations(calls, program));
      OpCount(EntryOf(r, "MQ").ops, "MQ" + MqVerbName(v)) == OpCount(EntryOf(d, "MQ").ops, "MQ" + MqVerbName(v)) + MqCount(calls, v)
  {
    FoldAt(d, MqObservations(calls, program), "MQ", "MQ" + MqVerbName(v));
    MqCountObs(calls, v, program);
  }
}
