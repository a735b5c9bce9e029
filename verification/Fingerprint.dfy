/**
 What a run's fingerprint is computed from.

 SHA-256 is opaque here: the fingerprint is the byte sequence fed to it. How a
 parameter value is normalized before hashing is the parameter `norm`.
 */
module Fingerprint {
  import opened Wrappers
  import opened Lineage
  import Text
  import Ordering

  /** One length-prefixed field. */
  function Field(p: string): string {
    Text.OfNat(|p|) + [':'] + p
  }

  function EncodeFields(ps: seq<string>): string {
    if |ps| == 0 then [] else Field(ps[0]) + EncodeFields(ps[1..])
  }

  lemma {:induction false} EncodeFieldsAppend(ps: seq<string>, p: string)
    ensures EncodeFields(ps + [p]) == EncodeFields(ps) + Field(p)
  {
    if |ps| == 0 {
      assert ps + [p] == [p];
      assert EncodeFields([p]) == Field(p) + EncodeFields([]);
    } else {
      assert (ps + [p])[1..] == ps[1..] + [p];
      EncodeFieldsAppend(ps[1..], p);
    }
  }

  /** A length-prefixed field can be read back off the front of any text. */
  lemma FieldSelfDelimiting(p: string, q: string, x: string, y: string)
    requires Field(p) + x == Field(q) + y
    ensures p == q && x == y
  {
    var s := Field(p) + x;
    assert s == Text.OfNat(|p|) + [':'] + (p + x);
    assert s == Text.OfNat(|q|) + [':'] + (q + y);
    Text.CutColonAt(Text.OfNat(|p|), p + x);
    Text.CutColonAt(Text.OfNat(|q|), q + y);
    Text.NatRoundTrip(|p|);
    Text.NatRoundTrip(|q|);
    assert |p| == |q| && p + x == q + y;
    assert p == (p + x)[..|p|] && q == (q + y)[..|q|];
    assert x == (p + x)[|p|..] && y == (q + y)[|q|..];
  }

  lemma {:induction false} EncodeFieldsInjective(ps: seq<string>, qs: seq<string>)
    requires EncodeFields(ps) == EncodeFields(qs)
    ensures ps == qs
  {
    if |ps| != 0 && |qs| != 0 {
      FieldSelfDelimiting(ps[0], qs[0], EncodeFields(ps[1..]), EncodeFields(qs[1..]));
      EncodeFieldsInjective(ps[1..], qs[1..]);
      assert ps == [ps[0]] + ps[1..] && qs == [qs[0]] + qs[1..];
    }
  }

  function BoolText(b: bool): string {
    if b then "true" else "false"
  }

  function ScalarFields(id: Identity): seq<string> {
    [id.project, id.gitCommit, BoolText(id.gitDirty), id.configHash,
     id.datasetVersion, id.modelVersion, Text.OfInt(id.seed)]
  }

  function ParamFields(keys: seq<string>, params: map<string, string>, norm: string -> string): seq<string>
    requires forall k | k in keys :: k in params
  {
    if |keys| == 0 then []
    else [keys[0], norm(params[keys[0]])] + ParamFields(keys[1..], params, norm)
  }

  ghost function SortedParamFields(id: Identity, norm: string -> string): seq<string> {
    ParamFields(Ordering.SortedSet(ParamsOf(id).Keys), ParamsOf(id), norm)
  }

  /** Everything `Compute` hashes, with the parameters in key order. */
  ghost function Preimage(id: Identity, norm: string -> string): string {
    EncodeFields(ScalarFields(id) + SortedParamFields(id, norm))
  }

  lemma {:induction false} EncodeConcat(ps: seq<string>, rest: seq<string>)
    ensures EncodeFields(ps + rest) == EncodeFields(ps) + EncodeFields(rest)
  {
    if |ps| == 0 {
      assert ps + rest == rest;
    } else {
      assert (ps + rest)[1..] == ps[1..] + rest;
      EncodeConcat(ps[1..], rest);
    }
  }

  /** The hashed bytes: the seven scalars in this order, then the parameters. */
  lemma PreimageBegins(id: Identity, norm: string -> string)
    ensures var scalars :=
              [id.project, id.gitCommit, if id.gitDirty then "true" else "false", id.configHash,
               id.datasetVersion, id.modelVersion, Text.OfInt(id.seed)];
            Preimage(id, norm) == EncodeFields(scalars) + EncodeFields(SortedParamFields(id, norm))
  {
    EncodeConcat(ScalarFields(id), SortedParamFields(id, norm));
  }

  /** Fields are hashed one after the other, each as its length in decimal, a colon and its bytes. */
  lemma FieldsHashed(ps: seq<string>, p: string)
    ensures EncodeFields([]) == ""
    ensures EncodeFields(ps + [p]) == EncodeFields(ps) + (Text.OfNat(|p|) + ":" + p)
  {
    EncodeFieldsAppend(ps, p);
  }

  /** Each parameter is hashed as its key and then its normalized value. */
  lemma ParamsHashed(k: string, keys: seq<string>, params: map<string, string>, norm: string -> string)
    requires k in params && forall x | x in keys :: x in params
    ensures EncodeFields(ParamFields([k] + keys, params, norm))
         == Text.OfNat(|k|) + ":" + k
            + (Text.OfNat(|norm(params[k])|) + ":" + norm(params[k]) + EncodeFields(ParamFields(keys, params, norm)))
  {
    var v, rest := norm(params[k]), ParamFields(keys, params, norm);
    assert ([k] + keys)[1..] == keys;
    assert ParamFields([k] + keys, params, norm) == [k] + ([v] + rest);
    EncodeFirst(k, [v] + rest);
    EncodeFirst(v, rest);
  }

  /** The parameters are hashed in the byte order of their keys, each once. */
  lemma ParamsInKeyOrder(id: Identity, norm: string -> string) returns (keys: seq<string>)
    ensures forall k :: k in keys <==> k in ParamsOf(id)
    ensures SortedParamFields(id, norm) == ParamFields(keys, ParamsOf(id), norm)
    ensures forall i, j | 0 <= i < j < |keys| :: Ordering.Before(keys[i], keys[j])
  {
    keys := Ordering.SortedSet(ParamsOf(id).Keys);
    Ordering.SortedSetStrict(ParamsOf(id).Keys);
  }

  lemma EncodeFirst(p: string, rest: seq<string>)
    ensures EncodeFields([p] + rest) == Text.OfNat(|p|) + ":" + p + EncodeFields(rest)
  {
    assert ([p] + rest)[1..] == rest;
  }

  ghost predicate SameScalars(a: Identity, b: Identity) {
    a.(params := None) == b.(params := None)
  }

  ghost predicate SameParams(a: Identity, b: Identity, norm: string -> string) {
    && ParamsOf(a).Keys == ParamsOf(b).Keys
    && forall k | k in ParamsOf(a).Keys :: norm(ParamsOf(a)[k]) == norm(ParamsOf(b)[k])
  }

  lemma {:induction false} ParamFieldsEqual(ks: seq<string>, ms: seq<string>,
                                            a: map<string, string>, b: map<string, string>, norm: string -> string)
    requires forall k | k in ks :: k in a
    requires forall k | k in ms :: k in b
    ensures ParamFields(ks, a, norm) == ParamFields(ms, b, norm)
       <==> ks == ms && forall k | k in ks :: k in b && norm(a[k]) == norm(b[k])
  {
    if |ks| != 0 && |ms| != 0 {
      ParamFieldsEqual(ks[1..], ms[1..], a, b, norm);
      var fa, fb := ParamFields(ks, a, norm), ParamFields(ms, b, norm);
      assert fa[0] == ks[0] && fa[1] == norm(a[ks[0]]) && fa[2..] == ParamFields(ks[1..], a, norm);
      assert fb[0] == ms[0] && fb[1] == norm(b[ms[0]]) && fb[2..] == ParamFields(ms[1..], b, norm);
      assert fa == fa[..2] + fa[2..] && fb == fb[..2] + fb[2..];
      assert ks == [ks[0]] + ks[1..] && ms == [ms[0]] + ms[1..];
      if fa == fb {
        assert fa[2..] == fb[2..];
      }
      if ks == ms && forall k | k in ks :: k in b && norm(a[k]) == norm(b[k]) {
        assert fa[..2] == fb[..2];
      }
    }
  }

  lemma ScalarFieldsEqual(a: Identity, b: Identity)
    ensures ScalarFields(a) == ScalarFields(b) <==> SameScalars(a, b)
  {
    if ScalarFields(a) == ScalarFields(b) {
      var fa, fb := ScalarFields(a), ScalarFields(b);
      assert fa[0] == fb[0] && fa[1] == fb[1] && fa[3] == fb[3] && fa[4] == fb[4] && fa[5] == fb[5];
      assert fa[2] == fb[2] && BoolText(a.gitDirty)[0] == BoolText(b.gitDirty)[0];
      assert fa[6] == fb[6];
      Text.OfIntInjective(a.seed, b.seed);
    }
  }

  lemma PrefixesEqual(a: seq<string>, b: seq<string>, x: seq<string>, y: seq<string>)
    requires |a| == |b|
    ensures a + x == b + y <==> a == b && x == y
  {
    if a + x == b + y {
      assert a == (a + x)[..|a|] && b == (b + y)[..|b|];
      assert x == (a + x)[|a|..] && y == (b + y)[|b|..];
    }
  }

  lemma SameKeysSameOrder(x: set<string>, y: set<string>)
    ensures Ordering.SortedSet(x) == Ordering.SortedSet(y) <==> x == y
  {
    if Ordering.SortedSet(x) == Ordering.SortedSet(y) {
      forall k ensures k in x <==> k in y {
        assert k in x <==> k in Ordering.SortedSet(x);
        assert k in y <==> k in Ordering.SortedSet(y);
      }
    }
  }

  lemma SortedParamFieldsEqual(a: Identity, b: Identity, norm: string -> string)
    ensures SortedParamFields(a, norm) == SortedParamFields(b, norm) <==> SameParams(a, b, norm)
  {
    var ka, kb := Ordering.SortedSet(ParamsOf(a).Keys), Ordering.SortedSet(ParamsOf(b).Keys);
    ParamFieldsEqual(ka, kb, ParamsOf(a), ParamsOf(b), norm);
    SameKeysSameOrder(ParamsOf(a).Keys, ParamsOf(b).Keys);
  }

  /**
   Two runs hash the same bytes exactly when their scalar identity fields agree
   and their parameters have the same keys with equal normalized values.
   */
  lemma PreimageEqual(a: Identity, b: Identity, norm: string -> string)
    ensures Preimage(a, norm) == Preimage(b, norm) <==> SameScalars(a, b) && SameParams(a, b, norm)
  {
    var fa, fb := ScalarFields(a) + SortedParamFields(a, norm), ScalarFields(b) + SortedParamFields(b, norm);
    PrefixesEqual(ScalarFields(a), ScalarFields(b), SortedParamFields(a, norm), SortedParamFields(b, norm));
    SortedParamFieldsEqual(a, b, norm);
    ScalarFieldsEqual(a, b);
    if EncodeFields(fa) == EncodeFields(fb) {
      EncodeFieldsInjective(fa, fb);
    }
  }

  /**
   `Compute` as it runs: collects the keys in whatever order the map yields
   them, sorts them, and feeds the hash field by field.
   */
  method Compute(id: Identity, norm: string -> string) returns (hashed: string)
    ensures hashed == Preimage(id, norm)
  {
    hashed := EncodeFields(ScalarFields(id));
    var params := ParamsOf(id);
    var keys := Ordering.CollectSorted(params.Keys);
    ghost var scalars := ScalarFields(id);
    assert scalars + ParamFields(keys[..0], params, norm) == scalars;
    for i := 0 to |keys|
      invariant hashed == EncodeFields(scalars + ParamFields(keys[..i], params, norm))
    {
      var k := keys[i];
      FeedParam(scalars, keys[..i], k, params, norm);
      assert keys[..i + 1] == keys[..i] + [k];
      hashed := hashed + Field(k) + Field(norm(params[k]));
    }
    assert keys[..|keys|] == keys;
  }

  lemma FeedParam(fed: seq<string>, ks: seq<string>, k: string, params: map<string, string>, norm: string -> string)
    requires forall x | x in ks :: x in params
    requires k in params
    ensures EncodeFields(fed + ParamFields(ks + [k], params, norm))
         == EncodeFields(fed + ParamFields(ks, params, norm)) + Field(k) + Field(norm(params[k]))
  {
    var before, v := fed + ParamFields(ks, params, norm), norm(params[k]);
    EncodeFieldsAppend(before, k);
    EncodeFieldsAppend(before + [k], v);
    ParamFieldsAppend(ks, k, params, norm);
    assert before + [k] + [v] == fed + (ParamFields(ks, params, norm) + [k, v]);
  }

  lemma {:induction false} ParamFieldsAppend(ks: seq<string>, k: string, params: map<string, string>,
                                             norm: string -> string)
    requires forall x | x in ks :: x in params
    requires k in params
    ensures ParamFields(ks + [k], params, norm) == ParamFields(ks, params, norm) + [k, norm(params[k])]
  {
    if |ks| == 0 {
      assert ks + [k] == [k];
      assert ParamFields([k], params, norm) == [k, norm(params[k])] + ParamFields([], params, norm);
    } else {
      assert (ks + [k])[1..] == ks[1..] + [k];
      ParamFieldsAppend(ks[1..], k, params, norm);
    }
  }
}
