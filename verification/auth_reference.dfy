/** What a reference to a named mechanism evaluates to when blocks are processed
    in sorted order. */
module AuthReferences {
  import opened Options
  import opened DependencyGraph
  import opened BlockSorter
  import opened AuthBinding
  import opened AuthOrdering

  /** `at` gives the declaration each auth block holds, by entry. */
  predicate DeclaredBy(ss: seq<Source>, at: map<nat, Decl>) {
    var bs := Blocks(ss);
    && (forall k :: k in at ==> exists i :: 0 <= i < |ss| && EntryIndex(bs, i) == k && Declares(ss[i], at[k].name))
    && (forall i :: 0 <= i < |ss| && ss[i].AuthBlock? ==>
          EntryIndex(bs, i) in at && at[EntryIndex(bs, i)].name == ss[i].name)
  }

  /** The declarations met when entries are processed in the order `p`. */
  function Met(p: seq<nat>, at: map<nat, Decl>): seq<Decl> {
    if p == [] then []
    else
      var k := p[|p| - 1];
      Met(p[..|p| - 1], at) + (if k in at then [at[k]] else [])
  }

  lemma {:induction false} MetConcat(p: seq<nat>, q: seq<nat>, at: map<nat, Decl>)
    ensures Met(p + q, at) == Met(p, at) + Met(q, at)
    decreases |q|
  {
    if q == [] {
      assert p + q == p;
    } else {
      assert (p + q)[..|p + q| - 1] == p + q[..|q| - 1];
      MetConcat(p, q[..|q| - 1], at);
    }
  }

  lemma {:induction false} MetHas(p: seq<nat>, at: map<nat, Decl>, d: Decl) returns (x: nat)
    requires d in Met(p, at)
    ensures x < |p| && p[x] in at && at[p[x]] == d
  {
    var n := |p| - 1;
    if d in Met(p[..n], at) {
      x := MetHas(p[..n], at, d);
    } else {
      x := n;
    }
  }

  lemma {:induction false} LastDeclaration(ss: seq<Source>, i: nat) returns (l: nat)
    requires i < |ss| && ss[i].AuthBlock?
    ensures i <= l < |ss| && Declares(ss[l], ss[i].name) && IsLast(ss, l)
    decreases |ss| - i
  {
    if IsLast(ss, i) {
      l := i;
    } else {
      var j :| i < j < |ss| && Declares(ss[j], ss[i].name);
      l := LastDeclaration(ss, j);
    }
  }

  /** No later block takes the id of a declaration of `name`. */
  predicate DeclarationsKept(ss: seq<Source>, name: string) {
    forall i :: 0 <= i < |ss| && Declares(ss[i], name) ==> Kept(ss, i)
  }

  lemma {:induction false} NoDeclarationAfter(
    ss: seq<Source>, at: map<nat, Decl>, p: seq<nat>, name: string, r: nat, y: nat, d: Decl)
    requires DeclaredBy(ss, at) && r < |ss| && Participates(Blocks(ss)[r]) && SharedId(name) in Blocks(ss)[r].deps
    requires DeclarationsKept(ss, name)
    requires var es := Entries(Blocks(ss)); Topological(p, |es|, Arcs(es))
    requires y < |p| && p[y] == EntryIndex(Blocks(ss), r)
    requires d in Met(p[y..], at)
    ensures d.name != name
  {
    var z := MetHas(p[y..], at, d);
    var x := y + z;
    var i :| 0 <= i < |ss| && EntryIndex(Blocks(ss), i) == p[x] && Declares(ss[i], d.name);
    if d.name == name {
      var l := LastDeclaration(ss, i);
      DeclarationsComeFirst(ss, p, i, l, r, x, y);
      assert false;
    }
  }

  /** The declarations met by the time `p[y]` is processed decide `name`. */
  lemma {:induction false} NameIsDecided(p: seq<nat>, at: map<nat, Decl>, y: nat, name: string)
    requires y < |p| && forall d :: d in Met(p[y..], at) ==> d.name != name
    ensures Find(ProcessAll(Met(p[..y], at)).0, name) == Find(ProcessAll(Met(p, at)).0, name)
  {
    MetConcat(p[..y], p[y..], at);
    assert p == p[..y] + p[y..];
    BindingIsFinal(Met(p[..y], at), Met(p[y..], at), name);
  }

  lemma {:induction false} SuccessBinds(ds: seq<Decl>, name: string, r: Option<Ref>)
    requires r == Find(ProcessAll(ds).0, name) && Unreserved(ds) && !Reserved(name) && ProcessAll(ds).1
    ensures BindingOf(ds, name, r)
  {
    ProcessingSucceeds(ds);
  }

  /** If the declarations of a name keep their ids, a block that references
      `auth.<name>` finds the binding the name ends up with, although further
      blocks are still to be processed; and if processing succeeds that is the
      enabled declaration, if there is one, and the disabled mechanism
      otherwise. */
  lemma {:induction false} ReferenceSeesFinalBinding(
    ss: seq<Source>, at: map<nat, Decl>, p: seq<nat>, name: string, r: nat, y: nat)
    requires DeclaredBy(ss, at) && r < |ss| && Participates(Blocks(ss)[r]) && SharedId(name) in Blocks(ss)[r].deps
    requires DeclarationsKept(ss, name)
    requires var es := Entries(Blocks(ss)); Topological(p, |es|, Arcs(es))
    requires y < |p| && p[y] == EntryIndex(Blocks(ss), r)
    ensures var found := Find(ProcessAll(Met(p[..y], at)).0, name);
            && found == Find(ProcessAll(Met(p, at)).0, name)
            && (Unreserved(Met(p, at)) && !Reserved(name) && ProcessAll(Met(p, at)).1 ==>
                  BindingOf(Met(p, at), name, found))
  {
    forall d | d in Met(p[y..], at) ensures d.name != name {
      NoDeclarationAfter(ss, at, p, name, r, y, d);
    }
    NameIsDecided(p, at, y, name);
    var all, found := Met(p, at), Find(ProcessAll(Met(p[..y], at)).0, name);
    if Unreserved(all) && !Reserved(name) && ProcessAll(all).1 {
      SuccessBinds(all, name, found);
    }
  }

  /** Once every declaration of a name has been processed, later ones leave its
      binding alone. */
  lemma {:induction false} BindingIsFinal(ds: seq<Decl>, more: seq<Decl>, name: string)
    requires forall d :: d in more ==> d.name != name
    ensures Find(ProcessAll(ds + more).0, name) == Find(ProcessAll(ds).0, name)
    decreases |more|
  {
    if more == [] {
      assert ds + more == ds;
    } else {
      var n := |more| - 1;
      assert (ds + more)[..|ds + more| - 1] == ds + more[..n];
      assert more[n] in more;
      BindingIsFinal(ds, more[..n], name);
    }
  }
}
