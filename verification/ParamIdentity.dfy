/** Number normalization and the fingerprint together: which parameter spellings are one experiment. */
module ParamIdentity {
  import opened Wrappers
  import opened Lineage
  import opened Numbers
  import Fingerprint
  import Text

  function Normalizer(fl: Float64): string -> string {
    v => NormalizeParam(v, fl)
  }

  /** The same text, or in-range literals of the same float. */
  ghost predicate SameValue(v: string, w: string, fl: Float64) {
    v == w || (InRangeFloat(v, fl).Some? && InRangeFloat(v, fl) == InRangeFloat(w, fl))
  }

  /**
   Two runs are the same experiment exactly when their scalar identity agrees
   and each parameter has the same text or spells the same float.
   */
  lemma SameExperimentExactly(a: Identity, b: Identity, fl: Float64)
    requires Faithful(fl)
    ensures Fingerprint.Preimage(a, Normalizer(fl)) == Fingerprint.Preimage(b, Normalizer(fl))
       <==> && Fingerprint.SameScalars(a, b)
            && ParamsOf(a).Keys == ParamsOf(b).Keys
            && forall k | k in ParamsOf(a).Keys :: SameValue(ParamsOf(a)[k], ParamsOf(b)[k], fl)
  {
    Fingerprint.PreimageEqual(a, b, Normalizer(fl));
    if ParamsOf(a).Keys == ParamsOf(b).Keys {
      forall k | k in ParamsOf(a).Keys
        ensures Normalizer(fl)(ParamsOf(a)[k]) == Normalizer(fl)(ParamsOf(b)[k])
           <==> SameValue(ParamsOf(a)[k], ParamsOf(b)[k], fl)
      {
        MergeMeans(ParamsOf(a)[k], ParamsOf(b)[k], fl);
      }
    }
  }

  lemma MergeMeans(v: string, w: string, fl: Float64)
    requires Faithful(fl)
    ensures Normalizer(fl)(v) == Normalizer(fl)(w) <==> SameValue(v, w, fl)
  {
    if v != w { MergedExactly(v, w, fl); }
  }

  // ----- The hypotheses about float64 can be met -----

  /** A codec whose floats are the integers. */
  const WHOLE_NUMBERS := Float64((x: real) => if x.Floor as real == x then Some(x) else None,
                                 (x: real) => Text.OfInt(x.Floor))

  lemma {:induction false} NoLeadingZero(n: nat)
    ensures n > 0 ==> Text.OfNat(n)[0] != '0'
    ensures n == 0 ==> Text.OfNat(n) == "0"
  {
    if n >= 10 { NoLeadingZero(n / 10); }
  }

  lemma WholeNumberPrintsBack(n: int)
    ensures Scan(Text.OfInt(n)).Some? && WellFormed(Scan(Text.OfInt(n)).value)
    ensures Value(Scan(Text.OfInt(n)).value) == n as real
  {
    var m: nat := if n < 0 then -n else n;
    NoLeadingZero(m);
    var sp := Spelling(n < 0, Text.OfNat(m), None, None);
    assert Render(sp) == Text.OfInt(n) by {
      assert Text.OfNat(m) + ("" + "") == Text.OfNat(m);
      assert "" + Text.OfNat(m) == Text.OfNat(m);
    }
    ScanComplete(sp);
    Text.NatRoundTrip(m);
    assert Digits(sp) == Text.OfNat(m);
  }

  lemma WholeNumbersFaithful()
    ensures Faithful(WHOLE_NUMBERS)
  {
    WholeNumberPrintsBack(0);
    forall x: real | WHOLE_NUMBERS.round(x).Some? ensures PrintsBack(WHOLE_NUMBERS, WHOLE_NUMBERS.round(x).value) {
      WholeNumberPrintsBack(x.Floor);
    }
  }
}
