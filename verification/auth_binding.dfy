/** Named authentication blocks: how declarations sharing a name are bound, in
    whatever order they are processed. */
module AuthBinding {
  import opened Options

  datatype RefKind = Real | Anonymous | Disabled

  /** What `auth.<name>` evaluates to. Authenticators are numbered. */
  datatype Ref = Ref(name: string, kind: RefKind, authenticator: Option<nat>)

  /** One auth block. `decodes`, `registered` and `builds` say whether its body
      decodes, its mechanism exists and its processor succeeds. */
  datatype Decl = Decl(
    name: string, disabled: bool, decodes: bool, registered: bool, builds: bool, authenticator: Option<nat>)

  const ANONYMOUS := "anonymous"
  const DISABLED := "disabled"

  predicate Reserved(name: string) {
    name == ANONYMOUS || name == DISABLED
  }

  predicate Bound(refs: map<string, Ref>, name: string) {
    name in refs && refs[name].kind.Real?
  }

  // ----- processing one declaration -----

  function Processed(refs: map<string, Ref>, d: Decl): (r: (map<string, Ref>, bool)) {
    if !d.decodes then (refs, false)
    else if d.disabled then
      (if Bound(refs, d.name) then refs else refs[d.name := Ref(d.name, Disabled, None)], true)
    else if !d.registered || Bound(refs, d.name) || !d.builds then (refs, false)
    else (refs[d.name := Ref(d.name, Real, d.authenticator)], true)
  }

  function Predefined(): map<string, Ref> {
    map[ANONYMOUS := Ref(ANONYMOUS, Anonymous, None), DISABLED := Ref(DISABLED, Disabled, None)]
  }

  /** The namespace after processing `ds` in order; an error does not stop it. */
  function ProcessAll(ds: seq<Decl>): (map<string, Ref>, bool) {
    if ds == [] then (Predefined(), true)
    else
      var (refs, ok) := ProcessAll(ds[..|ds| - 1]);
      var (after, good) := Processed(refs, ds[|ds| - 1]);
      (after, ok && good)
  }

  /** The namespace as the configuration keeps it. */
  class Namespace {
    var refs: map<string, Ref>
    var blocks: map<string, Decl>

    ghost predicate Valid()
      reads this
    {
      forall name :: Bound(refs, name) ==> name in blocks
    }

    constructor ()
      ensures Valid() && refs == Predefined()
    {
      refs := Predefined();
      blocks := map[];
    }

    method Process(d: Decl) returns (ok: bool)
      requires Valid() && !Reserved(d.name)
      modifies this
      ensures Valid() && (refs, ok) == Processed(old(refs), d)
      ensures blocks == if ok && !d.disabled then old(blocks)[d.name := d] else old(blocks)
    {
      if !d.decodes {
        return false;
      }
      if d.disabled {
        BindDisabled(d.name);
        return true;
      }
      if !d.registered {
        return false;
      }
      var existing := EnabledDeclaration(d.name);
      if existing.Some? {
        return false;
      }
      if !d.builds {
        return false;
      }
      Bind(Ref(d.name, Real, d.authenticator), Some(d));
      ok := true;
    }

    method EnabledDeclaration(name: string) returns (d: Option<Decl>)
      requires Valid()
      ensures d.Some? <==> Bound(refs, name)
      ensures d.Some? ==> name in blocks && d.value == blocks[name]
    {
      if name in refs && refs[name].kind.Real? {
        d := Some(blocks[name]);
      } else {
        d := None;
      }
    }

    method BindDisabled(name: string)
      requires Valid()
      modifies this
      ensures Valid() && blocks == old(blocks)
      ensures refs == if old(Bound(refs, name)) then old(refs) else old(refs)[name := Ref(name, Disabled, None)]
    {
      if name in refs && refs[name].kind.Real? {
        return;
      }
      Bind(Ref(name, Disabled, None), None);
    }

    method Bind(ref: Ref, block: Option<Decl>)
      requires Valid() && (ref.kind.Real? ==> block.Some?)
      modifies this
      ensures Valid() && refs == old(refs)[ref.name := ref]
      ensures blocks == if block.Some? then old(blocks)[ref.name := block.value] else old(blocks)
    {
      refs := refs[ref.name := ref];
      if block.Some? {
        blocks := blocks[ref.name := block.value];
      }
    }
  }

  // ----- what a name ends up bound to -----

  predicate Sound(d: Decl) {
    d.decodes && (d.disabled || (d.registered && d.builds))
  }

  predicate Enables(d: Decl, name: string) {
    d.name == name && !d.disabled
  }

  predicate AtMostOneEnabled(ds: seq<Decl>) {
    forall i, j :: 0 <= i < j < |ds| && !ds[i].disabled && !ds[j].disabled ==> ds[i].name != ds[j].name
  }

  /** The binding the declarations of `name` amount to, whatever their order. */
  ghost predicate BindingOf(ds: seq<Decl>, name: string, r: Option<Ref>) {
    if exists d :: d in ds && Enables(d, name) then
      exists d :: d in ds && Enables(d, name) && r == Some(Ref(name, Real, d.authenticator))
    else if exists d :: d in ds && d.name == name then r == Some(Ref(name, Disabled, None))
    else r == None
  }

  function Find(refs: map<string, Ref>, name: string): Option<Ref> {
    if name in refs then Some(refs[name]) else None
  }

  predicate Unreserved(ds: seq<Decl>) {
    forall d :: d in ds ==> !Reserved(d.name)
  }

  predicate AllSound(ds: seq<Decl>) {
    forall d :: d in ds ==> Sound(d)
  }

  /** Every name that can be declared is bound to what its declarations say. */
  ghost predicate Binds(ds: seq<Decl>, refs: map<string, Ref>) {
    forall name :: !Reserved(name) ==> BindingOf(ds, name, Find(refs, name))
  }

  /** Processing succeeds exactly when every declaration is sound and no name
      has two enabled ones; */
  lemma {:induction false} ProcessingSucceeds(ds: seq<Decl>)
    requires Unreserved(ds)
    ensures ProcessAll(ds).1 <==> AtMostOneEnabled(ds) && AllSound(ds)
    ensures ProcessAll(ds).1 ==> Binds(ds, ProcessAll(ds).0)
    ensures forall name :: Reserved(name) ==> Find(ProcessAll(ds).0, name) == Find(Predefined(), name)
  {
    ReservedKept(ds);
    if ds != [] {
      var n := |ds| - 1;
      var d := ds[n];
      assert ds == ds[..n] + [d];
      ProcessingSucceeds(ds[..n]);
      PrefixAllowed(ds[..n], d);
      if ProcessAll(ds[..n]).1 {
        ProcessStep(ds[..n], d);
      }
    }
  }

  lemma {:induction false} ReservedKept(ds: seq<Decl>)
    requires Unreserved(ds)
    ensures forall name :: Reserved(name) ==> Find(ProcessAll(ds).0, name) == Find(Predefined(), name)
  {
    if ds != [] {
      ReservedKept(ds[..|ds| - 1]);
      assert ds[|ds| - 1] in ds;
    }
  }

  lemma PrefixAllowed(ds: seq<Decl>, d: Decl)
    ensures AtMostOneEnabled(ds + [d]) ==> AtMostOneEnabled(ds)
    ensures AllSound(ds + [d]) <==> AllSound(ds) && Sound(d)
  {
    var all := ds + [d];
    assert forall x :: x in all <==> x in ds || x == d;
    assert forall i :: 0 <= i < |ds| ==> all[i] == ds[i];
  }

  lemma ProcessStep(ds: seq<Decl>, d: Decl)
    requires Unreserved(ds) && !Reserved(d.name) && ProcessAll(ds).1
    requires AtMostOneEnabled(ds) && AllSound(ds) && Binds(ds, ProcessAll(ds).0)
    ensures var (after, good) := Processed(ProcessAll(ds).0, d);
            && (good <==> AtMostOneEnabled(ds + [d]) && Sound(d))
            && (good ==> Binds(ds + [d], after))
  {
    var refs := ProcessAll(ds).0;
    var (after, good) := Processed(refs, d);
    assert BindingOf(ds, d.name, Find(refs, d.name));
    assert Bound(refs, d.name) <==> exists x :: x in ds && Enables(x, d.name);
    if good {
      forall name | !Reserved(name) ensures BindingOf(ds + [d], name, Find(after, name)) {
        BindingExtends(ds, d, name, refs, after);
      }
      if !d.disabled {
        assert AtMostOneEnabled(ds + [d]);
      }
    }
    if !d.disabled && Bound(refs, d.name) {
      var x :| x in ds && Enables(x, d.name);
      var i :| 0 <= i < |ds| && ds[i] == x;
      assert (ds + [d])[i] == x && (ds + [d])[|ds|] == d;
    }
  }

  lemma BindingExtends(ds: seq<Decl>, d: Decl, name: string, refs: map<string, Ref>, after: map<string, Ref>)
    requires Processed(refs, d) == (after, true)
    requires BindingOf(ds, name, Find(refs, name)) && BindingOf(ds, d.name, Find(refs, d.name))
    ensures BindingOf(ds + [d], name, Find(after, name))
  {
    var all := ds + [d];
    assert forall x :: x in all <==> x in ds || x == d;
    if d.name != name {
      assert forall x :: x in all && x.name == name <==> x in ds && x.name == name;
      assert Find(after, name) == Find(refs, name);
    } else if d.disabled {
      assert forall x :: x in all && Enables(x, name) <==> x in ds && Enables(x, name);
      assert d in all;
    } else {
      assert d in all && Enables(d, name);
    }
  }

  /** and then the bindings do not depend on the order. */
  lemma BindingIgnoresOrder(ds: seq<Decl>, es: seq<Decl>)
    requires Unreserved(ds) && multiset(ds) == multiset(es) && ProcessAll(ds).1
    ensures ProcessAll(es).1 && ProcessAll(es).0 == ProcessAll(ds).0
  {
    SameElements(ds, es);
    ProcessingSucceeds(ds);
    ProcessingSucceeds(es);
    OneEnabledIgnoresOrder(ds, es);
    forall name ensures Find(ProcessAll(es).0, name) == Find(ProcessAll(ds).0, name) {
      if !Reserved(name) {
        BindingUnique(ds, es, name, Find(ProcessAll(ds).0, name), Find(ProcessAll(es).0, name));
      }
    }
    SameBindings(ProcessAll(es).0, ProcessAll(ds).0);
  }

  lemma SameElements(ds: seq<Decl>, es: seq<Decl>)
    requires multiset(ds) == multiset(es)
    ensures forall d :: d in ds <==> d in es
  {
    assert forall d :: d in ds <==> d in multiset(ds);
    assert forall d :: d in es <==> d in multiset(es);
  }

  lemma SameBindings(a: map<string, Ref>, b: map<string, Ref>)
    requires forall name :: Find(a, name) == Find(b, name)
    ensures a == b
  {
    forall name ensures (name in a <==> name in b) && (name in a && name in b ==> a[name] == b[name]) {
      assert Find(a, name) == Find(b, name);
    }
  }

  lemma BindingUnique(ds: seq<Decl>, es: seq<Decl>, name: string, r: Option<Ref>, s: Option<Ref>)
    requires AtMostOneEnabled(ds) && forall d :: d in ds <==> d in es
    requires BindingOf(ds, name, r) && BindingOf(es, name, s)
    ensures r == s
  {
    forall c, d | c in ds && Enables(c, name) && d in ds && Enables(d, name) ensures c == d {
      var i :| 0 <= i < |ds| && ds[i] == c;
      var j :| 0 <= j < |ds| && ds[j] == d;
    }
  }

  lemma OneEnabledIgnoresOrder(ds: seq<Decl>, es: seq<Decl>)
    requires multiset(ds) == multiset(es) && AtMostOneEnabled(ds)
    ensures AtMostOneEnabled(es)
  {
    forall i, j | 0 <= i < j < |es| && !es[i].disabled && !es[j].disabled ensures es[i].name != es[j].name {
      if es[i] == es[j] {
        TwiceInSequence(es, i, j);
        TwiceApart(ds, es[i]);
        assert false;
      }
      assert es[i] in multiset(es) && es[j] in multiset(es);
      var k :| 0 <= k < |ds| && ds[k] == es[i];
      var l :| 0 <= l < |ds| && ds[l] == es[j];
      assert k != l;
    }
  }

  lemma TwiceInSequence(s: seq<Decl>, i: nat, j: nat)
    requires i < j < |s| && s[i] == s[j]
    ensures multiset(s)[s[i]] >= 2
  {
    assert s == s[..i] + [s[i]] + s[i + 1..j] + [s[j]] + s[j + 1..];
  }

  lemma {:induction false} TwiceApart(s: seq<Decl>, d: Decl)
    requires multiset(s)[d] >= 2
    ensures exists i, j :: 0 <= i < j < |s| && s[i] == d && s[j] == d
  {
    var n := |s| - 1;
    assert s == s[..n] + [s[n]];
    if s[n] == d {
      assert multiset(s[..n])[d] >= 1;
      assert d in s[..n];
    } else {
      TwiceApart(s[..n], d);
      var i, j :| 0 <= i < j < n && s[..n][i] == d && s[..n][j] == d;
      assert s[i] == d && s[j] == d;
    }
  }

  /** The built-in names keep their meaning whatever is declared. */
  lemma {:induction false} ReservedNamesHold(ds: seq<Decl>)
    requires Unreserved(ds)
    ensures var refs := ProcessAll(ds).0;
            && Find(refs, "anonymous") == Some(Ref("anonymous", Anonymous, None))
            && Find(refs, "disabled") == Some(Ref("disabled", Disabled, None))
  {
    ProcessingSucceeds(ds);
  }
}
