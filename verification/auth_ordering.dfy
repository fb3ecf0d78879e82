/** Where auth declarations and references to them land in the sorted order. A
    name is represented by its final declaration, which waits for the others, so
    whoever waits for it waits for them all, unless a later block has taken the
    id one of them goes by. */
module AuthOrdering {
  import opened DependencyGraph
  import opened BlockSorter

  /** A block in the source. `byte` is its offset within its own file. */
  datatype Source =
    | AuthBlock(name: string, byte: nat, refs: seq<string>)
    | OtherBlock(handled: bool, id: string, idError: bool, deps: seq<string>, depsError: bool)

  function Decimal(n: nat): string {
    if n < 10 then ["0123456789"[n]] else Decimal(n / 10) + ["0123456789"[n % 10]]
  }

  function SharedId(name: string): string {
    "auth." + name
  }

  /** What a declaration goes by when a later one represents its name. */
  function DeclId(name: string, byte: nat): string {
    "auth." + name + "#" + Decimal(byte)
  }

  predicate IsDigit(c: char) {
    '0' <= c <= '9'
  }

  lemma {:induction false} DecimalIsDigits(n: nat)
    ensures Decimal(n) != [] && forall i :: 0 <= i < |Decimal(n)| ==> IsDigit(Decimal(n)[i])
  {
    if n >= 10 { DecimalIsDigits(n / 10); }
  }

  lemma {:induction false} DecimalIsUnique(m: nat, n: nat)
    requires Decimal(m) == Decimal(n)
    ensures m == n
  {
    var a, b := Decimal(m), Decimal(n);
    DecimalIsDigits(m / 10);
    DecimalIsDigits(n / 10);
    assert a[|a| - 1] == "0123456789"[m % 10] && b[|b| - 1] == "0123456789"[n % 10];
    assert m % 10 == n % 10;
    if m >= 10 && n >= 10 {
      assert a[..|a| - 1] == Decimal(m / 10) && b[..|b| - 1] == Decimal(n / 10);
      DecimalIsUnique(m / 10, n / 10);
    }
  }

  /** Where the `#` stands tells the name from the offset. */
  lemma {:induction false} SplitsAtHash(s: string, t: string, m: nat, n: nat)
    requires s + "#" + Decimal(m) == t + "#" + Decimal(n)
    ensures s == t && Decimal(m) == Decimal(n)
  {
    DecimalIsDigits(m);
    DecimalIsDigits(n);
    var a, b := s + "#" + Decimal(m), t + "#" + Decimal(n);
    assert a[|s|] == '#' && b[|t|] == '#';
    assert |s| == |t|;
    assert a[..|s|] == s && b[..|t|] == t;
    assert a[|s| + 1..] == Decimal(m) && b[|t| + 1..] == Decimal(n);
  }

  /** Two declarations go by the same id only if they share both name and offset:
      within one file ids are distinct. */
  lemma {:induction false} IdsAreDistinctWithinAFile(name: string, byte: nat, other: string, offset: nat)
    ensures DeclId(name, byte) == DeclId(other, offset) <==> name == other && byte == offset
  {
    if DeclId(name, byte) == DeclId(other, offset) {
      SplitsAtHash("auth." + name, "auth." + other, byte, offset);
      assert ("auth." + name)[5..] == name && ("auth." + other)[5..] == other;
      DecimalIsUnique(byte, offset);
    }
  }

  predicate Declares(s: Source, name: string) {
    s.AuthBlock? && s.name == name
  }

  predicate IsLast(ss: seq<Source>, i: nat)
    requires i < |ss| && ss[i].AuthBlock?
  {
    forall j :: i < j < |ss| ==> !Declares(ss[j], ss[i].name)
  }

  /** The ids of the declarations of `name` in `ss`, as earlier ones. */
  function DeclIds(ss: seq<Source>, name: string): seq<string> {
    if ss == [] then []
    else
      var last := ss[|ss| - 1];
      DeclIds(ss[..|ss| - 1], name) + (if Declares(last, name) then [DeclId(name, last.byte)] else [])
  }

  /** What the handlers report for the `i`th block. */
  function BlockAt(ss: seq<Source>, i: nat): Block
    requires i < |ss|
  {
    match ss[i]
    case AuthBlock(name, byte, refs) =>
      if IsLast(ss, i) then Block(true, SharedId(name), false, refs + DeclIds(ss[..i], name), false, name)
      else Block(true, DeclId(name, byte), false, refs, false, name)
    case OtherBlock(handled, id, idError, deps, depsError) => Block(handled, id, idError, deps, depsError, "")
  }

  function Blocks(ss: seq<Source>): (bs: seq<Block>)
    ensures |bs| == |ss| && forall i :: 0 <= i < |ss| ==> bs[i] == BlockAt(ss, i)
  {
    seq(|ss|, i requires 0 <= i < |ss| => BlockAt(ss, i))
  }

  /** The index among the entries of a participating block. */
  function EntryIndex(blocks: seq<Block>, i: nat): nat
    requires i < |blocks|
  {
    |Entries(blocks[..i])|
  }

  lemma {:induction false} EntryAt(blocks: seq<Block>, i: nat)
    requires i < |blocks| && Participates(blocks[i])
    ensures EntryIndex(blocks, i) < |Entries(blocks)| && Entries(blocks)[EntryIndex(blocks, i)] == blocks[i]
  {
    var n := |blocks| - 1;
    if i < n {
      EntryAt(blocks[..n], i);
      assert blocks[..n][..i] == blocks[..i];
    }
  }

  /** No later entry takes the id of entry `k`. */
  predicate Unshadowed(es: seq<Block>, k: nat)
    requires k < |es|
  {
    forall l :: k < l < |es| ==> es[l].id != es[k].id
  }

  lemma ResolveUnshadowed(es: seq<Block>, k: nat)
    requires k < |es|
    ensures Resolve(es, es[k].id) == Found(k) <==> Unshadowed(es, k)
  {
  }

  lemma {:induction false} DeclIdsHas(ss: seq<Source>, name: string, i: nat)
    requires i < |ss| && Declares(ss[i], name)
    ensures DeclId(name, ss[i].byte) in DeclIds(ss, name)
  {
    if i < |ss| - 1 {
      DeclIdsHas(ss[..|ss| - 1], name, i);
    }
  }

  /** The last declaration depends on an earlier one exactly when no later
      block takes the earlier one's id. */
  lemma EarlierDeclarationArc(ss: seq<Source>, i: nat, l: nat)
    requires i < l < |ss| && ss[l].AuthBlock? && IsLast(ss, l) && Declares(ss[i], ss[l].name)
    ensures var bs := Blocks(ss);
            && EntryIndex(bs, i) < |Entries(bs)|
            && (Arc(EntryIndex(bs, i), EntryIndex(bs, l)) in Arcs(Entries(bs))
                <==> Unshadowed(Entries(bs), EntryIndex(bs, i)))
  {
    var bs := Blocks(ss);
    var es := Entries(bs);
    assert !IsLast(ss, i);
    EntryAt(bs, i);
    EntryAt(bs, l);
    var d := DeclId(ss[l].name, ss[i].byte);
    assert bs[i].id == d;
    assert ss[..l][i] == ss[i];
    DeclIdsHas(ss[..l], ss[l].name, i);
    assert d in bs[l].deps;
    ResolveUnshadowed(es, EntryIndex(bs, i));
    ArcMeansReference(es, EntryIndex(bs, i), EntryIndex(bs, l));
  }

  /** A block that references a name depends on the name's last declaration
      exactly when no later block takes that declaration's id. */
  lemma ReferenceArc(ss: seq<Source>, l: nat, r: nat)
    requires l < |ss| && r < |ss| && ss[l].AuthBlock? && IsLast(ss, l)
    requires Participates(Blocks(ss)[r]) && SharedId(ss[l].name) in Blocks(ss)[r].deps
    ensures Arc(EntryIndex(Blocks(ss), l), EntryIndex(Blocks(ss), r)) in Arcs(Entries(Blocks(ss))) <==> Kept(ss, l)
  {
    var bs := Blocks(ss);
    EntryAt(bs, l);
    EntryAt(bs, r);
    ResolveUnshadowed(Entries(bs), EntryIndex(bs, l));
    ArcMeansReference(Entries(bs), EntryIndex(bs, l), EntryIndex(bs, r));
  }

  /** No later block takes the id of the `i`th block. */
  predicate Kept(ss: seq<Source>, i: nat)
    requires i < |ss|
  {
    var es, k := Entries(Blocks(ss)), EntryIndex(Blocks(ss), i);
    k < |es| && Unshadowed(es, k)
  }

  /** A block that references `auth.<name>` comes after a declaration of the
      name, in every order the sorter may return, if no later block takes that
      declaration's id or the last declaration's. */
  lemma DeclarationsComeFirst(ss: seq<Source>, p: seq<nat>, i: nat, l: nat, r: nat, x: nat, y: nat)
    requires i <= l < |ss| && ss[l].AuthBlock? && IsLast(ss, l) && Declares(ss[i], ss[l].name)
    requires r < |ss| && Participates(Blocks(ss)[r]) && SharedId(ss[l].name) in Blocks(ss)[r].deps
    requires Kept(ss, i) && Kept(ss, l)
    requires var es := Entries(Blocks(ss)); Topological(p, |es|, Arcs(es))
    requires x < |p| && y < |p| && p[x] == EntryIndex(Blocks(ss), i) && p[y] == EntryIndex(Blocks(ss), r)
    ensures x < y
  {
    var bs := Blocks(ss);
    var es := Entries(bs);
    EntryAt(bs, l);
    ReferenceArc(ss, l, r);
    assert Arc(EntryIndex(bs, l), p[y]) in Arcs(es);
    if i < l {
      OrderHasAll(p, |es|, EntryIndex(bs, l));
      var z :| 0 <= z < |p| && p[z] == EntryIndex(bs, l);
      EarlierDeclarationArc(ss, i, l);
      assert Arc(p[x], p[z]) in Arcs(es);
      assert Arc(p[z], p[y]) in Arcs(es);
    }
  }

  // ----- two files, one offset -----

  /** Three declarations of `x`, the first two at offset 0 of different files,
      the first waiting for `v`, and a block `r` referencing `auth.x`. */
  const COLLIDING := [
    AuthBlock("x", 0, ["v"]),
    AuthBlock("x", 0, []),
    AuthBlock("x", 9, []),
    OtherBlock(true, "r", false, ["auth.x"], false),
    OtherBlock(true, "v", false, [], false)]

  function CollidingBlocks(): seq<Block> {
    [Block(true, "auth.x#0", false, ["v"], false, "x"),
     Block(true, "auth.x#0", false, [], false, "x"),
     Block(true, "auth.x", false, ["auth.x#0", "auth.x#0"], false, "x"),
     Block(true, "r", false, ["auth.x"], false, ""),
     Block(true, "v", false, [], false, "")]
  }

  const COLLIDING_ARCS := [Arc(4, 0), Arc(1, 2), Arc(1, 2), Arc(2, 3)]

  lemma CollidingIsReported()
    ensures Blocks(COLLIDING) == CollidingBlocks()
  {
    assert DeclId("x", 0) == "auth.x#0";
    assert Declares(COLLIDING[0], "x") && Declares(COLLIDING[1], "x") && Declares(COLLIDING[2], "x");
    assert !IsLast(COLLIDING, 0) && !IsLast(COLLIDING, 1) && IsLast(COLLIDING, 2);
    assert COLLIDING[..2] == [COLLIDING[0], COLLIDING[1]];
    assert [COLLIDING[0], COLLIDING[1]][..1] == [COLLIDING[0]] && [COLLIDING[0]][..0] == [];
    assert DeclIds([COLLIDING[0]], "x") == ["auth.x#0"];
    assert DeclIds(COLLIDING[..2], "x") == ["auth.x#0", "auth.x#0"];
    var es := CollidingBlocks();
    assert BlockAt(COLLIDING, 0) == es[0] && BlockAt(COLLIDING, 1) == es[1];
    assert [] + ["auth.x#0", "auth.x#0"] == es[2].deps;
    assert BlockAt(COLLIDING, 2) == es[2];
    assert BlockAt(COLLIDING, 3) == es[3] && BlockAt(COLLIDING, 4) == es[4];
  }

  lemma {:induction false} AllParticipate(blocks: seq<Block>)
    requires forall i :: 0 <= i < |blocks| ==> Participates(blocks[i])
    ensures Entries(blocks) == blocks && Others(blocks) == []
  {
    if blocks != [] {
      AllParticipate(blocks[..|blocks| - 1]);
      assert blocks == blocks[..|blocks| - 1] + [blocks[|blocks| - 1]];
    }
  }

  lemma CollidingResolves()
    ensures var es := CollidingBlocks();
            && Resolve(es, "v") == Found(4) && Resolve(es, "auth.x#0") == Found(1) && Resolve(es, "auth.x") == Found(2)
  {
    var es := CollidingBlocks();
    ResolveUnshadowed(es, 4);
    ResolveUnshadowed(es, 2);
    ResolveUnshadowed(es, 1);
  }

  lemma ArcsIntoOne(es: seq<Block>, j: nat, d: string)
    ensures ArcsInto(es, j, [d]) == if Resolve(es, d).Found? then [Arc(Resolve(es, d).index, j)] else []
  {
    assert [d][..0] == [];
  }

  lemma CollidingArcs()
    ensures Arcs(CollidingBlocks()) == COLLIDING_ARCS
  {
    var es := CollidingBlocks();
    CollidingResolves();
    ArcsIntoOne(es, 0, "v");
    ArcsIntoOne(es, 2, "auth.x#0");
    ArcsIntoOne(es, 3, "auth.x");
    var two := ["auth.x#0", "auth.x#0"];
    assert two[..1] == ["auth.x#0"];
    assert ArcsInto(es, 2, two) == [Arc(1, 2), Arc(1, 2)];
    assert ArcsUpTo(es, 0) == [];
    assert ArcsUpTo(es, 1) == [Arc(4, 0)];
    assert ArcsUpTo(es, 2) == [Arc(4, 0)];
    assert ArcsUpTo(es, 3) == [Arc(4, 0), Arc(1, 2), Arc(1, 2)];
    assert ArcsUpTo(es, 4) == COLLIDING_ARCS;
    assert ArcsUpTo(es, 5) == COLLIDING_ARCS;
  }

  lemma CollidingGreedy()
    ensures Greedy([1, 2, 3, 4, 0], 5, COLLIDING_ARCS)
  {
    var p := [1, 2, 3, 4, 0];
    var arcs := COLLIDING_ARCS;
    assert arcs[0] == Arc(4, 0) && arcs[1] == Arc(1, 2) && arcs[3] == Arc(2, 3);
    assert p[..0] == [] && p[..1] == [1] && p[..2] == [1, 2] && p[..3] == [1, 2, 3] && p[..4] == [1, 2, 3, 4];
    forall done | 4 !in done ensures !Ready(done, 0, 5, arcs) {
      assert arcs[0] in arcs;
    }
  }

  lemma CollidingLeast(p: seq<nat>)
    requires LeastTopological(p, 5, COLLIDING_ARCS)
    ensures p == [1, 2, 3, 4, 0]
  {
    var q := [1, 2, 3, 4, 0];
    CollidingGreedy();
    GreedyIsTopological(q, 5, COLLIDING_ARCS);
    forall t | Topological(t, 5, COLLIDING_ARCS) ensures LexLeq(q, t) {
      GreedyIsLeast(q, t, 5, COLLIDING_ARCS);
    }
    LeastIsUnique(p, q, 5, COLLIDING_ARCS);
  }

  lemma CollidingShape()
    ensures var es := Blocks(COLLIDING);
            && |es| == 5 && es[3] == BlockAt(COLLIDING, 3) && es[0] == BlockAt(COLLIDING, 0)
            && Entries(es) == es && Others(es) == [] && Arcs(es) == COLLIDING_ARCS
  {
    CollidingIsReported();
    AllParticipate(CollidingBlocks());
    CollidingArcs();
  }

  /** The reference is then processed before the first declaration: ids built
      from the offset alone are not unique across files. */
  lemma CollidingIdsMisorder(out: seq<Block>)
    requires IsLeastOrder(Blocks(COLLIDING), out)
    ensures |out| == 5 && out[2] == BlockAt(COLLIDING, 3) && out[4] == BlockAt(COLLIDING, 0)
  {
    var es := Blocks(COLLIDING);
    CollidingShape();
    var p :| LeastTopological(p, |es|, Arcs(es)) && out == Place(es, p) + Others(es);
    CollidingLeast(p);
  }
}
