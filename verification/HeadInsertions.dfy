/** Repeated head insertions at the root, down to the repeated position: apps/api/app/ops/apply.py with apps/api/app/lexorank.py. */
module HeadInsertions {
  import opened Wrappers
  import opened Ranks
  import opened Forest
  import opened Wire
  import opened ServerRanks
  import opened ApplyOps
  import opened ApplyProperties

  function HeadInsert(id: Id, typ: string, content: Content): Op {
    Insert(id, typ, None, None, content)
  }

  /** Blocks `ids` inserted one after another at the head of the root. */
  function HeadInsertsOf(doc: nat, ids: seq<Id>, typ: string, content: Content): seq<Op> {
    seq(|ids|, i requires 0 <= i < |ids| => HeadInsert(ids[i], typ, content))
  }

  /** The smallest root position. */
  ghost function Head(t: Table, doc: nat): Option<Rank> {
    Least(t, Siblings(t, doc, None))
  }

  /** One head insertion always applies, takes `Before` of the head, and becomes the head unless that was all '0'. */
  lemma OneHeadInsert(t: Table, doc: nat, id: Id, typ: string, content: Content, r: Rank)
    requires Shaped(t) && id !in t && Head(t, doc) == Some(r)
    ensures Valid(r) && Before(r).Ok?
    ensures var t' := Step(t, doc, HeadInsert(id, typ, content)).0; var q := Before(r).value;
            && t' == t[id := Row(doc, None, q, 0, typ, content, 1)]
            && Shaped(t') && Head(t', doc) == Some(if AllZero(r) then r else q)
  {
    var sib := Siblings(t, doc, None);
    var t' := Step(t, doc, HeadInsert(id, typ, content)).0;
    LeastIsZeroIff(t, sib, r);
    BeforeSpec(r);
    var q := Before(r).value;
    assert Beyond(t, doc, None, None) == sib;
    assert t' == t[id := Row(doc, None, q, 0, typ, content, 1)];
    StepKeepsShape(t, doc, HeadInsert(id, typ, content));
    NewHead(t, t', doc, id, r, q);
  }

  lemma NewHead(t: Table, t': Table, doc: nat, id: Id, r: Rank, q: Rank)
    requires id !in t && Head(t, doc) == Some(r) && Valid(r) && Before(r) == Ok(q)
    requires id in t' && t' == t[id := t'[id]] && t'[id].doc == doc && t'[id].parent == None && t'[id].position == q
    ensures Head(t', doc) == Some(if AllZero(r) then r else q)
  {
    var sib, sib' := Siblings(t, doc, None), Siblings(t', doc, None);
    assert sib' == sib + {id};
    BeforeSpec(r);
    NotLtIsGe(q, r);
    assert IsLeast(t', sib, Some(r));
    LeastWithOneMore(t', sib, Some(r), id);
    LeastUnique(t', sib', Head(t', doc), if Lt(q, r) then Some(q) else Some(r));
  }

  /** The position of the `i`-th of the inserted blocks. */
  function HeadPosition(r: Rank, i: nat): Rank
    requires Valid(r)
  {
    var h := Halvings(FirstDigit(r));
    if i < h then HeadInserts(r, i + 1) else After(HeadInserts(r, h))
  }

  function HeadAfter(r: Rank, k: nat): Rank
    requires Valid(r)
  {
    var h := Halvings(FirstDigit(r));
    HeadInserts(r, if k < h then k else h)
  }

  lemma HeadInsertsNext(r: Rank, m: nat)
    requires Valid(r)
    ensures Before(HeadInserts(r, m)) == Ok(HeadInserts(r, m + 1))
  {
    BeforeSpec(HeadInserts(r, m));
  }

  lemma HeadIsZeroIff(r: Rank, k: nat)
    requires Valid(r)
    ensures AllZero(HeadAfter(r, k)) <==> k >= Halvings(FirstDigit(r))
  {
    var h := Halvings(FirstDigit(r));
    var m := if k < h then k else h;
    HeadInsertDigit(r, m);
    HalvedZero(FirstDigit(r), m);
  }

  lemma HeadDescends(r: Rank, k: nat)
    requires Valid(r)
    ensures Before(HeadAfter(r, k)) == Ok(HeadPosition(r, k))
    ensures HeadAfter(r, k + 1) == if AllZero(HeadAfter(r, k)) then HeadAfter(r, k) else HeadPosition(r, k)
  {
    HeadIsZeroIff(r, k);
    if k < Halvings(FirstDigit(r)) {
      HeadInsertsNext(r, k);
    } else {
      BeforeSpec(HeadAfter(r, k));
    }
  }

  ghost predicate NewIds(t: Table, ids: seq<Id>) {
    && (forall i :: 0 <= i < |ids| ==> ids[i] !in t)
    && (forall i, j :: 0 <= i < j < |ids| ==> ids[i] != ids[j])
  }

  /** The table after `k` of the head insertions. */
  ghost function HeadRun(t: Table, doc: nat, ids: seq<Id>, typ: string, content: Content, k: nat): Table
    requires k <= |ids|
  {
    Run(t, PostedTo(doc, HeadInsertsOf(doc, ids, typ, content)[..k]))
  }

  predicate StandsAt(s: Table, doc: nat, id: Id, q: Rank) {
    id in s && s[id].doc == doc && s[id].parent == None && s[id].position == q
  }

  /** After `k` insertions exactly the first `k` blocks are new, each standing at its position. */
  ghost predicate Inserted(t: Table, s: Table, doc: nat, ids: seq<Id>, ps: seq<Rank>, k: nat)
    requires k <= |ids| == |ps|
  {
    && (forall x :: x in s <==> x in t || x in ids[..k])
    && (forall i :: 0 <= i < k ==> StandsAt(s, doc, ids[i], ps[i]))
  }

  function HeadPositions(r: Rank, n: nat): seq<Rank>
    requires Valid(r)
  {
    seq(n, i requires 0 <= i < n => HeadPosition(r, i))
  }

  ghost predicate HeadRunOk(t: Table, s: Table, doc: nat, ids: seq<Id>, k: nat, r: Rank)
    requires Valid(r) && k <= |ids|
  {
    Shaped(s) && Head(s, doc) == Some(HeadAfter(r, k)) && Inserted(t, s, doc, ids, HeadPositions(r, |ids|), k)
  }

  lemma HeadRunNext(t: Table, doc: nat, ids: seq<Id>, typ: string, content: Content, k: nat)
    requires k < |ids|
    ensures HeadRun(t, doc, ids, typ, content, k + 1) == Step(HeadRun(t, doc, ids, typ, content, k), doc, HeadInsert(ids[k], typ, content)).0
  {
    PostedNext(t, doc, HeadInsertsOf(doc, ids, typ, content), k);
  }

  /** The new block stands at `q`; nothing else changes. */
  ghost predicate Adds(s: Table, s': Table, doc: nat, id: Id, q: Rank) {
    id in s' && s' == s[id := s'[id]] && s'[id].doc == doc && s'[id].parent == None && s'[id].position == q
  }

  lemma AddedIsInserted(t: Table, s: Table, s': Table, doc: nat, ids: seq<Id>, ps: seq<Rank>, k: nat)
    requires k < |ids| == |ps| && NewIds(t, ids) && Inserted(t, s, doc, ids, ps, k) && Adds(s, s', doc, ids[k], ps[k])
    ensures Inserted(t, s', doc, ids, ps, k + 1)
  {
    assert ids[..k + 1] == ids[..k] + [ids[k]];
    forall i | 0 <= i < k + 1
      ensures StandsAt(s', doc, ids[i], ps[i])
    {
      assert i < k ==> ids[i] != ids[k] && StandsAt(s, doc, ids[i], ps[i]);
    }
  }

  lemma HeadRunOkNext(t: Table, s: Table, doc: nat, ids: seq<Id>, typ: string, content: Content, k: nat, r: Rank)
    requires Valid(r) && k < |ids| && NewIds(t, ids) && HeadRunOk(t, s, doc, ids, k, r)
    ensures HeadRunOk(t, Step(s, doc, HeadInsert(ids[k], typ, content)).0, doc, ids, k + 1, r)
  {
    assert ids[k] !in ids[..k];
    HeadDescends(r, k);
    OneHeadInsert(s, doc, ids[k], typ, content, HeadAfter(r, k));
    AddedIsInserted(t, s, Step(s, doc, HeadInsert(ids[k], typ, content)).0, doc, ids, HeadPositions(r, |ids|), k);
  }

  lemma HeadRunGoesOn(t: Table, doc: nat, ids: seq<Id>, typ: string, content: Content, k: nat, r: Rank)
    requires Valid(r) && k < |ids| && NewIds(t, ids) && HeadRunOk(t, HeadRun(t, doc, ids, typ, content, k), doc, ids, k, r)
    ensures HeadRunOk(t, HeadRun(t, doc, ids, typ, content, k + 1), doc, ids, k + 1, r)
  {
    HeadRunNext(t, doc, ids, typ, content, k);
    HeadRunOkNext(t, HeadRun(t, doc, ids, typ, content, k), doc, ids, typ, content, k, r);
  }

  lemma HeadRunStarts(t: Table, doc: nat, ids: seq<Id>, typ: string, content: Content, r: Rank)
    requires Shaped(t) && Head(t, doc) == Some(r) && Valid(r)
    ensures HeadRunOk(t, HeadRun(t, doc, ids, typ, content, 0), doc, ids, 0, r)
  {
    assert PostedTo(doc, HeadInsertsOf(doc, ids, typ, content)[..0]) == [];
    assert HeadAfter(r, 0) == r;
  }

  /** The head descends through the halvings of the first digit of `r`, and then stays. */
  lemma {:induction false} HeadRunDescends(t: Table, doc: nat, ids: seq<Id>, typ: string, content: Content, k: nat, r: Rank)
    requires Shaped(t) && NewIds(t, ids) && k <= |ids| && Head(t, doc) == Some(r) && Valid(r)
    ensures HeadRunOk(t, HeadRun(t, doc, ids, typ, content, k), doc, ids, k, r)
    decreases k
  {
    if k == 0 {
      HeadRunStarts(t, doc, ids, typ, content, r);
    } else {
      HeadRunDescends(t, doc, ids, typ, content, k - 1, r);
      HeadRunGoesOn(t, doc, ids, typ, content, k - 1, r);
    }
  }

  /**
   * From any table whose root positions start at `r`, the head insertions numbered
   * floor(log2 v) + 2 and + 3, v being the first non-'0' digit of `r`, get the same
   * position; if `r` is all '0' it is the first two.
   */
  lemma RootPositionsRepeat(t: Table, doc: nat, ids: seq<Id>, typ: string, content: Content, r: Rank)
    requires Shaped(t) && NewIds(t, ids) && Head(t, doc) == Some(r) && Valid(r) && |ids| == Halvings(FirstDigit(r)) + 2
    ensures var end := Run(t, PostedTo(doc, HeadInsertsOf(doc, ids, typ, content)));
            var x, y := ids[|ids| - 2], ids[|ids| - 1];
            && x != y && x in end && y in end && end[x].doc == end[y].doc == doc && end[x].parent == end[y].parent == None
            && end[x].position == end[y].position == After(HeadInserts(r, |ids| - 2))
  {
    HeadRunDescends(t, doc, ids, typ, content, |ids|, r);
    var ops := HeadInsertsOf(doc, ids, typ, content);
    assert ops[..|ids|] == ops;
    var s, ps := Run(t, PostedTo(doc, ops)), HeadPositions(r, |ids|);
    assert StandsAt(s, doc, ids[|ids| - 2], ps[|ids| - 2]) && StandsAt(s, doc, ids[|ids| - 1], ps[|ids| - 1]);
  }

  /** From the seed "m" these are the sixth and the seventh insertion, both at "0i". */
  lemma SeededRootRepeats(doc: nat, seed: Row, seedId: Id, ids: seq<Id>, typ: string, content: Content)
    requires seed.doc == doc && seed.parent == None && seed.position == DEFAULT_SEED && seed.depth == 0 && seed.version == 1
    requires NewIds(map[seedId := seed], ids) && |ids| == 7
    ensures var t := map[seedId := seed];
            var end := Run(t, PostedTo(doc, HeadInsertsOf(doc, ids, typ, content)));
            && ApplyProperties.Initial(t)
            && ids[5] != ids[6] && ids[5] in end && ids[6] in end && end[ids[5]].doc == end[ids[6]].doc == doc
            && end[ids[5]].parent == end[ids[6]].parent == None
            && end[ids[5]].position == end[ids[6]].position == [MIN_CHAR, MID_CHAR]
  {
    var t := map[seedId := seed];
    RunInvariant(t, []);
    var sib := Siblings(t, doc, None);
    assert sib == {seedId};
    LeastUnique(t, sib, Head(t, doc), Some(DEFAULT_SEED));
    SeedDescent();
    RootPositionsRepeat(t, doc, ids, typ, content, DEFAULT_SEED);
    SeedEndsInZero();
  }

  lemma SeedEndsInZero()
    ensures HeadInserts(DEFAULT_SEED, 5) == [MIN_CHAR]
  {
    var b, five, two, one: Rank := [98], [53], [50], [49];
    assert Before(DEFAULT_SEED).value == b && HeadInserts(DEFAULT_SEED, 1) == b;
    assert Before(b).value == five && HeadInserts(DEFAULT_SEED, 2) == five;
    assert Before(five).value == two && HeadInserts(DEFAULT_SEED, 3) == two;
    assert Before(two).value == one && HeadInserts(DEFAULT_SEED, 4) == one;
    assert Before(one).value == [MIN_CHAR];
  }
}
