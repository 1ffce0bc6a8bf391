/**
 * The small helpers of test/extended/prometheus/prometheus.go: the error
 * collector `all`, the label-map copy `labels.With` and the environment
 * lookup `findEnvVar`.
 */
module Helpers {
  import opened Wrappers

  // ---------------------------------------------------------------------------
  // all: collect the non-nil errors.

  /** The non-nil values among `errs`, in argument order. */
  function NonNil<E>(errs: seq<Option<E>>): (r: seq<E>)
    ensures |r| <= |errs|
  {
    if errs == [] then []
    else
      var last := errs[|errs| - 1];
      NonNil(errs[..|errs| - 1]) + (if last.Some? then [last.value] else [])
  }

  /** `all`: the non-nil arguments, in argument order. */
  method All<E>(errs: seq<Option<E>>) returns (result: seq<E>)
    ensures result == NonNil(errs)
  {
    result := [];
    for i := 0 to |errs|
      invariant result == NonNil(errs[..i])
    {
      assert errs[..i + 1][..i] == errs[..i];
      if errs[i].Some? {
        result := result + [errs[i].value];
      }
    }
    assert errs[..|errs|] == errs;
  }

  /** One error per non-nil argument: as many as there are arguments that are not nil. */
  lemma {:induction false} NonNilLength<E>(errs: seq<Option<E>>)
    ensures |NonNil(errs)| == |errs| - multiset(errs)[None]
  {
    if errs != [] {
      var init := errs[..|errs| - 1];
      NonNilLength(init);
      assert errs == init + [errs[|errs| - 1]];
    }
  }

  /** Nothing is collected exactly when every argument is nil. */
  lemma {:induction false} NonNilEmptyIff<E>(errs: seq<Option<E>>)
    ensures NonNil(errs) == [] <==> forall i :: 0 <= i < |errs| ==> errs[i].None?
  {
    if errs != [] {
      var init := errs[..|errs| - 1];
      NonNilEmptyIff(init);
      if forall i :: 0 <= i < |init| ==> init[i].None? {
        assert forall i :: 0 <= i < |errs| - 1 ==> errs[i] == init[i];
      }
    }
  }

  /** The collected errors, put back as non-nil values, are the arguments with the nils dropped. */
  lemma {:induction false} NonNilInOrder<E>(errs: seq<Option<E>>)
    ensures IsSubsequence(Wrap(NonNil(errs)), errs)
    ensures forall e :: e in NonNil(errs) <==> Some(e) in errs
  {
    if errs != [] {
      var init := errs[..|errs| - 1];
      var last := errs[|errs| - 1];
      NonNilInOrder(init);
      var r := NonNil(errs);
      assert errs == init + [last];
      if last.Some? {
        assert Wrap(r)[..|r| - 1] == Wrap(NonNil(init));
      } else {
        assert Wrap(r) == Wrap(NonNil(init));
        assert errs[..|errs| - 1] == init;
      }
    }
  }

  function Wrap<E>(es: seq<E>): (r: seq<Option<E>>)
    ensures |r| == |es|
  {
    seq(|es|, i requires 0 <= i < |es| => Some(es[i]))
  }

  // ---------------------------------------------------------------------------
  // labels.With: a copy of the receiver with one label set.

  /** `labels.With`: a fresh map equal to `l` except that `name` maps to `value`; `l` itself is a value and stays as it was. */
  method With(l: map<string, string>, name: string, value: string) returns (n: map<string, string>)
    ensures n == l[name := value]
    ensures n.Keys == l.Keys + {name}
    ensures n[name] == value
    ensures forall k :: k in l && k != name ==> n[k] == l[k]
  {
    n := map[];
    var pending := l.Keys;
    while pending != {}
      invariant pending <= l.Keys
      invariant n.Keys == l.Keys - pending
      invariant forall k :: k in n ==> n[k] == l[k]
      decreases pending
    {
      var k :| k in pending;
      n := n[k := l[k]];
      pending := pending - {k};
    }
    n := n[name := value];
  }

  // ---------------------------------------------------------------------------
  // findEnvVar: first environment variable of a name.

  /** A container environment variable; the source's value-from references are not modelled. */
  datatype EnvVar = EnvVar(name: string, value: string)

  /** No variable before position `i` has name `key`. */
  predicate NoneBefore(vars: seq<EnvVar>, key: string, i: int)
    requires 0 <= i <= |vars|
  {
    forall j :: 0 <= j < i ==> vars[j].name != key
  }

  /** `findEnvVar`: the value of the first variable named `key`, or "" when there is none. */
  method FindEnvVar(vars: seq<EnvVar>, key: string) returns (value: string)
    ensures NoneBefore(vars, key, |vars|) ==> value == ""
    ensures forall i :: 0 <= i < |vars| && vars[i].name == key && NoneBefore(vars, key, i) ==> value == vars[i].value
  {
    for i := 0 to |vars|
      invariant NoneBefore(vars, key, i)
    {
      if vars[i].name == key {
        return vars[i].value;
      }
    }
    return "";
  }
}
