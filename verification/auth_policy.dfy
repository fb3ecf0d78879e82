/** Folding the value of an `auth` attribute into a policy. */
module AuthPolicies {
  import opened Options
  import opened AuthBinding

  /** What the attribute evaluates to. An element that is not an auth
      reference is `None`. */
  datatype AuthValue = Absent | Null | One(ref: Ref) | Many(elems: seq<Option<Ref>>) | Wrong

  datatype Policy = Policy(authenticators: seq<nat>, allowAnonymous: bool, names: seq<string>)

  datatype Resolution = Inherit | InvalidReference | AnonymousNotLast | Decided(policy: Policy)

  /** The authenticators that remain, in order. */
  function Remaining(refs: seq<Ref>): seq<nat> {
    if refs == [] then []
    else
      var r := refs[|refs| - 1];
      Remaining(refs[..|refs| - 1]) + (if r.kind.Real? && r.authenticator.Some? then [r.authenticator.value] else [])
  }

  predicate NamesAnonymous(refs: seq<Ref>) {
    exists i :: 0 <= i < |refs| && refs[i].kind.Anonymous?
  }

  /** A request no mechanism claims may proceed. */
  predicate Open(refs: seq<Ref>) {
    Remaining(refs) == [] || NamesAnonymous(refs)
  }

  predicate AnonymousOnlyLast(refs: seq<Ref>) {
    forall i :: 0 <= i < |refs| - 1 ==> !refs[i].kind.Anonymous?
  }

  predicate AllReferences(elems: seq<Option<Ref>>) {
    forall i :: 0 <= i < |elems| ==> elems[i].Some?
  }

  function Names(refs: seq<Ref>): seq<string> {
    seq(|refs|, i requires 0 <= i < |refs| => refs[i].name)
  }

  /** The references a well-formed value holds. */
  function References(v: AuthValue): seq<Ref> {
    match v
    case One(r) => [r]
    case Many(elems) => if AllReferences(elems) then seq(|elems|, i requires 0 <= i < |elems| => elems[i].value) else []
    case _ => []
  }

  predicate WellFormed(v: AuthValue) {
    v.One? || (v.Many? && AllReferences(v.elems))
  }

  method ResolveAuth(v: AuthValue) returns (r: Resolution)
    ensures r.Inherit? <==> v.Absent?
    ensures r.InvalidReference? <==> !v.Absent? && !WellFormed(v)
    ensures r.AnonymousNotLast? <==> WellFormed(v) && !AnonymousOnlyLast(References(v))
    ensures r.Decided? ==>
              && r.policy.authenticators == Remaining(References(v))
              && r.policy.names == Names(References(v))
              && (r.policy.allowAnonymous <==> Open(References(v)))
  {
    match v {
      case Absent => r := Inherit;
      case Null => r := InvalidReference;
      case Wrong => r := InvalidReference;
      case One(ref) => r := Fold([ref]);
      case Many(elems) =>
        var refs: seq<Ref> := [];
        for i := 0 to |elems|
          invariant |refs| == i && forall k :: 0 <= k < i ==> elems[k] == Some(refs[k])
        {
          if elems[i].None? {
            return InvalidReference;
          }
          refs := refs + [elems[i].value];
        }
        assert refs == References(v);
        r := Fold(refs);
    }
  }

  method Fold(refs: seq<Ref>) returns (r: Resolution)
    ensures r.AnonymousNotLast? || r.Decided?
    ensures r.AnonymousNotLast? <==> !AnonymousOnlyLast(refs)
    ensures r.Decided? ==>
              && r.policy.authenticators == Remaining(refs)
              && r.policy.names == Names(refs)
              && (r.policy.allowAnonymous <==> Open(refs))
  {
    var policy := Policy([], false, []);
    for i := 0 to |refs|
      invariant policy.authenticators == Remaining(refs[..i])
      invariant policy.names == Names(refs[..i])
      invariant policy.allowAnonymous <==> exists k :: 0 <= k < i && refs[k].kind.Anonymous?
      invariant forall k :: 0 <= k < i && k < |refs| - 1 ==> !refs[k].kind.Anonymous?
    {
      var ref := refs[i];
      assert refs[..i + 1][..i] == refs[..i];
      policy := policy.(names := policy.names + [ref.name]);
      match ref.kind {
        case Disabled =>
        case Anonymous =>
          if i != |refs| - 1 {
            return AnonymousNotLast;
          }
          policy := policy.(allowAnonymous := true);
        case Real =>
          if ref.authenticator.Some? {
            policy := policy.(authenticators := policy.authenticators + [ref.authenticator.value]);
          }
      }
    }
    assert refs[..|refs|] == refs;
    if |policy.authenticators| == 0 {
      policy := policy.(allowAnonymous := true);
    }
    r := Decided(policy);
  }

  // ----- switching mechanisms off -----

  predicate Enforces(r: Ref) {
    r.kind.Real? && r.authenticator.Some?
  }

  /** `off` is `refs` with some of its mechanisms switched off. */
  predicate SwitchedOff(refs: seq<Ref>, off: seq<Ref>) {
    && |off| == |refs|
    && forall i :: 0 <= i < |refs| ==>
         off[i] == refs[i] || (refs[i].kind.Real? && off[i] == Ref(refs[i].name, Disabled, None))
  }

  lemma {:induction false} NothingRemains(refs: seq<Ref>)
    ensures Remaining(refs) == [] <==> forall i :: 0 <= i < |refs| ==> !Enforces(refs[i])
  {
    if refs != [] {
      var p := refs[..|refs| - 1];
      NothingRemains(p);
      assert forall i :: 0 <= i < |p| ==> p[i] == refs[i];
    }
  }

  lemma {:induction false} RemainingShrinks(refs: seq<Ref>, off: seq<Ref>)
    requires SwitchedOff(refs, off)
    ensures multiset(Remaining(off)) <= multiset(Remaining(refs))
  {
    if refs != [] {
      RemainingShrinks(refs[..|refs| - 1], off[..|refs| - 1]);
    }
  }

  /** Switching off any of a list's mechanisms adds none, leaves it as
      well-formed as it was, and opens the route only if the list named
      `auth.anonymous` or nothing in it enforces any more. */
  lemma {:induction false} SwitchingOffKeepsEnforcing(refs: seq<Ref>, off: seq<Ref>)
    requires SwitchedOff(refs, off)
    ensures AnonymousOnlyLast(off) <==> AnonymousOnlyLast(refs)
    ensures multiset(Remaining(off)) <= multiset(Remaining(refs))
    ensures Open(off) <==> NamesAnonymous(refs) || forall i :: 0 <= i < |off| ==> !Enforces(off[i])
  {
    RemainingShrinks(refs, off);
    NothingRemains(off);
    assert forall i :: 0 <= i < |refs| ==> (off[i].kind.Anonymous? <==> refs[i].kind.Anonymous?);
    if i :| 0 <= i < |refs| && refs[i].kind.Anonymous? {
      assert off[i].kind.Anonymous?;
    }
  }

  // ----- order -----

  /** What remains is tried in the order written, and the names are all of those
      written, in order. */
  lemma {:induction false} OrderIsKept(refs: seq<Ref>, i: nat)
    requires i < |refs|
    ensures Enforces(refs[i]) ==>
              && |Remaining(refs[..i])| < |Remaining(refs)|
              && Remaining(refs)[|Remaining(refs[..i])|] == refs[i].authenticator.value
    ensures |Names(refs)| == |refs| && Names(refs)[i] == refs[i].name
  {
    var n := |refs| - 1;
    if i < n {
      OrderIsKept(refs[..n], i);
      assert refs[..n][..i] == refs[..i];
    }
  }
}
