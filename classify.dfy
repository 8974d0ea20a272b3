/**
  The per-sample pass over one record: every sample is classified by its call
  (uncalled, non-carrier 0/0, heterozygous carrier, homozygous alternate), the
  allele counts, the uncalled count and the singleton candidate are updated,
  and the evidence of non-carriers and heterozygous carriers is collected into
  seven vectors. ClassifySamples is the loop. Tallied states its result by
  class, from reference definitions that do not follow the loop, and the
  lemmas state what those mean.
*/
module Classify {
  import opened Missing
  import opened Vcf

  /** A quotient of two integers kept unevaluated; the denominator may be 0. */
  datatype Ratio = Ratio(num: int, den: int)

  datatype GenotypeClass = Uncalled | NonCarrier | HetCarrier | HomAltCarrier

  /** The class of a call: uncalled if either allele is missing, otherwise by
      how many alternate alleles it holds. */
  function ClassOf(g: Genotype): (c: GenotypeClass) {
    if g.first == NoCall || g.second == NoCall then Uncalled
    else if g.first == 0 && g.second == 0 then NonCarrier
    else if g.first != g.second then HetCarrier
    else HomAltCarrier
  }

  /** GQ vectors are filled when GQ is declared with an integer or real type. */
  predicate CollectsGq(hdr: Header) {
    "GQ" in hdr.keys && hdr.gqType != OtherType
  }

  /** A sample's GQ as it enters the evidence: 0 when it is missing. */
  function GqEvidence(hdr: Header, s: Sample): (gq: real) {
    if hdr.gqType == IntegerType then
      (if IsMissingInt32(s.gqInt) then 0.0 else s.gqInt as real)
    else
      (if IsMissingFloat(s.gqFloat) then 0.0 else s.gqFloat.r)
  }

  /** Alternate support: split reads for a precise call, discordant pairs
      otherwise. */
  function SupportRatio(precise: bool, s: Sample): (ratio: Ratio) {
    if precise then Ratio(s.rv as int, s.rr as int + s.rv as int)
    else Ratio(s.dv as int, s.dr as int + s.dv as int)
  }

  /** Read depth relative to the flanks. */
  function DepthRatio(s: Sample): (ratio: Ratio) {
    Ratio(s.rc as int, s.rcl as int + s.rcr as int)
  }

  /** The baseline read count. */
  function Depth(s: Sample): (depth: real) {
    s.rc as real
  }

  /** The state of the pass: ac[0] and ac[1] count reference and alternate
      alleles; rareCarrier is the last heterozygous carrier at which ac[1]
      became 1; the vectors hold the evidence. */
  datatype Tally = Tally(
    ac: seq<int>, uncalled: int, rareCarrier: string,
    gqRef: seq<real>, gqAlt: seq<real>,
    ratioRef: seq<Ratio>, ratioAlt: seq<Ratio>,
    rcRefRatio: seq<Ratio>, rcAltRatio: seq<Ratio>,
    rcRef: seq<real>)

  const Initial: Tally := Tally([0, 0], 0, "", [], [], [], [], [], [], [])

  /** The singleton column: the recorded carrier if exactly one alternate
      allele was seen, otherwise "NA". */
  function SingletonOf(t: Tally): (name: string)
    requires |t.ac| == 2
  {
    if t.ac[1] != 1 then "NA" else t.rareCarrier
  }

  // ---- Reference definitions, independent of the pass ----

  /** Indices of the first n samples whose call is of class c, ascending. */
  function IndicesOf(rec: Record, c: GenotypeClass, n: nat): (r: seq<nat>)
    requires n <= |rec.samples|
    ensures forall j :: 0 <= j < |r| ==> r[j] < n && ClassOf(rec.samples[r[j]].gt) == c
  {
    if n == 0 then []
    else IndicesOf(rec, c, n - 1) + (if ClassOf(rec.samples[n - 1].gt) == c then [n - 1] else [])
  }

  /** The number of the first n samples whose call is of class c. */
  function CountOf(rec: Record, c: GenotypeClass, n: nat): (count: nat)
    requires n <= |rec.samples|
  {
    |IndicesOf(rec, c, n)|
  }

  /** The number of called samples among the first n. */
  function CalledCount(rec: Record, n: nat): (count: nat)
    requires n <= |rec.samples|
  {
    CountOf(rec, NonCarrier, n) + CountOf(rec, HetCarrier, n) + CountOf(rec, HomAltCarrier, n)
  }

  /** How many alleles of the first n called samples carry allele index a. */
  function AlleleCount(rec: Record, a: int, n: nat): (count: nat)
    requires n <= |rec.samples|
  {
    if n == 0 then 0
    else
      var g := rec.samples[n - 1].gt;
      AlleleCount(rec, a, n - 1)
      + (if g.first != NoCall && g.second != NoCall
         then (if g.first == a then 1 else 0) + (if g.second == a then 1 else 0)
         else 0)
  }

  /** The evidence of a set of samples, each vector in sample order: GQ,
      support ratio, depth ratio and baseline read count. */
  datatype Evidence = Evidence(gq: seq<real>, support: seq<Ratio>, depthRatio: seq<Ratio>, depth: seq<real>)

  /** The evidence of the first n samples of class c. */
  function EvidenceOf(hdr: Header, rec: Record, c: GenotypeClass, n: nat): (e: Evidence)
    requires n <= |rec.samples|
  {
    if n == 0 then Evidence([], [], [], [])
    else
      var e, s := EvidenceOf(hdr, rec, c, n - 1), rec.samples[n - 1];
      if ClassOf(s.gt) == c then
        Evidence(e.gq + [GqEvidence(hdr, s)], e.support + [SupportRatio(rec.precise, s)],
                 e.depthRatio + [DepthRatio(s)], e.depth + [Depth(s)])
      else e
  }

  /** Each evidence vector of a class holds one entry per sample of that
      class, the j-th entry being the evidence of the j-th such sample. */
  lemma {:induction false} EvidenceByIndex(hdr: Header, rec: Record, c: GenotypeClass, n: nat)
    requires n <= |rec.samples|
    ensures var e, k := EvidenceOf(hdr, rec, c, n), CountOf(rec, c, n);
      |e.gq| == |e.support| == |e.depthRatio| == |e.depth| == k
    ensures var e := EvidenceOf(hdr, rec, c, n);
      forall j :: 0 <= j < CountOf(rec, c, n) ==>
        var s := rec.samples[IndicesOf(rec, c, n)[j]];
        && e.gq[j] == GqEvidence(hdr, s)
        && e.support[j] == SupportRatio(rec.precise, s)
        && e.depthRatio[j] == DepthRatio(s)
        && e.depth[j] == Depth(s)
  {
    if n > 0 {
      EvidenceByIndex(hdr, rec, c, n - 1);
    }
  }

  /** The heterozygous carrier at whose call the alternate allele count
      last became 1 among the first n samples; "" if there is none. */
  function CarrierOf(hdr: Header, rec: Record, n: nat): (name: string)
    requires SamplesWellFormed(hdr, rec) && n <= |rec.samples|
  {
    if n == 0 then ""
    else if ClassOf(rec.samples[n - 1].gt) == HetCarrier && AlleleCount(rec, 1, n) == 1 then hdr.sampleNames[n - 1]
    else CarrierOf(hdr, rec, n - 1)
  }

  // ---- What the pass computes ----

  /** The state of the pass after the first n samples, by class: ac holds
      the allele counts, uncalled the uncalled samples, and each vector the
      evidence of the 0/0 or 0/1 samples in sample order when its key is
      declared. */
  function Tallied(hdr: Header, rec: Record, n: nat): (t: Tally)
    requires SamplesWellFormed(hdr, rec) && n <= |rec.samples|
    ensures |t.ac| == 2
  {
    var ref, het := EvidenceOf(hdr, rec, NonCarrier, n), EvidenceOf(hdr, rec, HetCarrier, n);
    var gq, rc, dv := CollectsGq(hdr), "RC" in hdr.keys, "DV" in hdr.keys;
    Tally([AlleleCount(rec, 0, n), AlleleCount(rec, 1, n)], CountOf(rec, Uncalled, n), CarrierOf(hdr, rec, n),
          if gq then ref.gq else [], if gq then het.gq else [],
          if dv then ref.support else [], if dv then het.support else [],
          if rc then ref.depthRatio else [], if rc then het.depthRatio else [],
          if rc then ref.depth else [])
  }

  /** Allele counts by class: a non-carrier holds two reference alleles, a
      heterozygous carrier one of each, a homozygous carrier two alternate
      alleles; every sample is in exactly one class. */
  lemma {:induction false} AllelesByClass(hdr: Header, rec: Record, n: nat)
    requires SamplesWellFormed(hdr, rec) && n <= |rec.samples|
    ensures AlleleCount(rec, 0, n) == 2 * CountOf(rec, NonCarrier, n) + CountOf(rec, HetCarrier, n)
    ensures AlleleCount(rec, 1, n) == CountOf(rec, HetCarrier, n) + 2 * CountOf(rec, HomAltCarrier, n)
    ensures CountOf(rec, Uncalled, n) + CalledCount(rec, n) == n
  {
    if n > 0 {
      AllelesByClass(hdr, rec, n - 1);
    }
  }

  /** After the pass, uncalled plus called samples make up all samples, and
      the two allele counts together are twice the called samples. */
  lemma CallAccounting(hdr: Header, rec: Record)
    requires SamplesWellFormed(hdr, rec)
    ensures var t := Tallied(hdr, rec, |rec.samples|);
      && t.uncalled + CalledCount(rec, |rec.samples|) == |rec.samples|
      && t.ac[0] + t.ac[1] == 2 * CalledCount(rec, |rec.samples|)
  {
    AllelesByClass(hdr, rec, |rec.samples|);
  }

  /** While ac[1] is 1, exactly one heterozygous carrier has been seen and
      rareCarrier names it. */
  lemma {:induction false} CarrierInvariant(hdr: Header, rec: Record, n: nat)
    requires SamplesWellFormed(hdr, rec) && n <= |rec.samples|
    ensures AlleleCount(rec, 1, n) == 1 ==>
              CountOf(rec, HetCarrier, n) == 1
              && CarrierOf(hdr, rec, n) == hdr.sampleNames[IndicesOf(rec, HetCarrier, n)[0]]
  {
    if n > 0 {
      CarrierInvariant(hdr, rec, n - 1);
      AllelesByClass(hdr, rec, n - 1);
    }
  }

  /** The singleton column names the heterozygous carrier when it is the only
      sample holding an alternate allele, and is "NA" otherwise. */
  lemma Singleton(hdr: Header, rec: Record)
    requires SamplesWellFormed(hdr, rec)
    ensures var n := |rec.samples|;
      SingletonOf(Tallied(hdr, rec, n))
      == if CountOf(rec, HetCarrier, n) == 1 && CountOf(rec, HomAltCarrier, n) == 0
         then hdr.sampleNames[IndicesOf(rec, HetCarrier, n)[0]]
         else "NA"
  {
    var n := |rec.samples|;
    CarrierInvariant(hdr, rec, n);
    AllelesByClass(hdr, rec, n);
  }

  /** Appends a sample's GQ to a GQ vector when GQ is declared: the integer or
      the real encoding as the header declares it, 0 when the value is missing. */
  method PushGq(hdr: Header, s: Sample, v: seq<real>) returns (v': seq<real>)
    ensures v' == if CollectsGq(hdr) then v + [GqEvidence(hdr, s)] else v
  {
    v' := v;
    if "GQ" in hdr.keys {
      if hdr.gqType == IntegerType {
        if IsMissingInt32(s.gqInt) { v' := v' + [0.0]; } else { v' := v' + [s.gqInt as real]; }
      } else if hdr.gqType == RealType {
        if IsMissingFloat(s.gqFloat) { v' := v' + [0.0]; } else { v' := v' + [s.gqFloat.r]; }
      }
    }
  }

  /** Appends a sample's support ratio when DV is declared: RV/(RR+RV) for a
      precise record, DV/(DR+DV) otherwise. */
  method PushSupport(hdr: Header, precise: bool, s: Sample, v: seq<Ratio>) returns (v': seq<Ratio>)
    ensures v' == if "DV" in hdr.keys then v + [SupportRatio(precise, s)] else v
  {
    v' := v;
    if "DV" in hdr.keys {
      if precise {
        v' := v' + [Ratio(s.rv as int, s.rr as int + s.rv as int)];
      } else {
        v' := v' + [Ratio(s.dv as int, s.dr as int + s.dv as int)];
      }
    }
  }

  /** Appends a sample's read-depth ratio RC/(RCL+RCR) when RC is declared. */
  method PushDepthRatio(hdr: Header, s: Sample, v: seq<Ratio>) returns (v': seq<Ratio>)
    ensures v' == if "RC" in hdr.keys then v + [DepthRatio(s)] else v
  {
    v' := v;
    if "RC" in hdr.keys {
      v' := v' + [Ratio(s.rc as int, s.rcl as int + s.rcr as int)];
    }
  }

  /** Appends a sample's baseline read count RC when RC is declared. */
  method PushDepth(hdr: Header, s: Sample, v: seq<real>) returns (v': seq<real>)
    ensures v' == if "RC" in hdr.keys then v + [Depth(s)] else v
  {
    v' := v;
    if "RC" in hdr.keys {
      v' := v' + [s.rc as real];
    }
  }

  /** The vectors a loop keeps for one class equal that class's evidence, each
      vector kept only when its key is declared. */
  predicate Holds(hdr: Header, e: Evidence, gq: seq<real>, support: seq<Ratio>, depthRatio: seq<Ratio>) {
    && gq == (if CollectsGq(hdr) then e.gq else [])
    && support == (if "DV" in hdr.keys then e.support else [])
    && depthRatio == (if "RC" in hdr.keys then e.depthRatio else [])
  }

  /** A sample of another class leaves a class's evidence as it was. */
  lemma EvidenceUnchanged(hdr: Header, rec: Record, c: GenotypeClass, i: nat)
    requires i < |rec.samples| && ClassOf(rec.samples[i].gt) != c
    ensures EvidenceOf(hdr, rec, c, i + 1) == EvidenceOf(hdr, rec, c, i)
  {
  }

  /** How sample i moves the counts and the singleton candidate. */
  lemma CountsStep(hdr: Header, rec: Record, i: nat)
    requires SamplesWellFormed(hdr, rec) && i < |rec.samples|
    ensures var g := rec.samples[i].gt;
      && AlleleCount(rec, 0, i + 1) == AlleleCount(rec, 0, i) + (if ClassOf(g) == Uncalled then 0 else (if g.first == 0 then 1 else 0) + (if g.second == 0 then 1 else 0))
      && AlleleCount(rec, 1, i + 1) == AlleleCount(rec, 1, i) + (if ClassOf(g) == Uncalled then 0 else (if g.first == 1 then 1 else 0) + (if g.second == 1 then 1 else 0))
      && CountOf(rec, Uncalled, i + 1) == CountOf(rec, Uncalled, i) + (if ClassOf(g) == Uncalled then 1 else 0)
      && CarrierOf(hdr, rec, i + 1) == if ClassOf(g) == HetCarrier && AlleleCount(rec, 1, i + 1) == 1 then hdr.sampleNames[i] else CarrierOf(hdr, rec, i)
  {
  }

  /** The counters a pass keeps after the first n samples. */
  predicate Counted(hdr: Header, rec: Record, n: nat, ac: seq<int>, uncalled: int, rareCarrier: string)
    requires SamplesWellFormed(hdr, rec) && n <= |rec.samples|
  {
    && |ac| == 2 && ac[0] == AlleleCount(rec, 0, n) && ac[1] == AlleleCount(rec, 1, n)
    && uncalled == CountOf(rec, Uncalled, n)
    && rareCarrier == CarrierOf(hdr, rec, n)
  }

  /** Counts sample i: both alleles of a call into the reference and
      alternate counters, the sample into the uncalled count when it has no
      call, and its name as the singleton candidate when it is a heterozygous
      carrier holding the first alternate allele seen. */
  method CountSample(hdr: Header, rec: Record, i: nat, ac: seq<int>, uncalled: int, rareCarrier: string)
    returns (ac': seq<int>, uncalled': int, rareCarrier': string)
    requires SamplesWellFormed(hdr, rec) && i < |rec.samples|
    requires Counted(hdr, rec, i, ac, uncalled, rareCarrier)
    ensures Counted(hdr, rec, i + 1, ac', uncalled', rareCarrier')
  {
    var s := rec.samples[i];
    var a, b := s.gt.first, s.gt.second;
    assert BiallelicAllele(a) && BiallelicAllele(b);
    CountsStep(hdr, rec, i);
    ac', uncalled', rareCarrier' := ac, uncalled, rareCarrier;
    if a != NoCall && b != NoCall {
      var gtType := a + b;
      ac' := ac'[a := ac'[a] + 1];
      ac' := ac'[b := ac'[b] + 1];
      if gtType == 1 && ac'[1] == 1 {
        rareCarrier' := hdr.sampleNames[i];
      }
    } else {
      uncalled' := uncalled' + 1;
    }
  }

  /** Records the evidence of sample i, a non-carrier. */
  method AddNonCarrier(hdr: Header, rec: Record, i: nat,
                       gq: seq<real>, support: seq<Ratio>, depthRatio: seq<Ratio>, depth: seq<real>)
    returns (gq': seq<real>, support': seq<Ratio>, depthRatio': seq<Ratio>, depth': seq<real>)
    requires i < |rec.samples| && ClassOf(rec.samples[i].gt) == NonCarrier
    requires Holds(hdr, EvidenceOf(hdr, rec, NonCarrier, i), gq, support, depthRatio)
    requires depth == if "RC" in hdr.keys then EvidenceOf(hdr, rec, NonCarrier, i).depth else []
    ensures Holds(hdr, EvidenceOf(hdr, rec, NonCarrier, i + 1), gq', support', depthRatio')
    ensures depth' == if "RC" in hdr.keys then EvidenceOf(hdr, rec, NonCarrier, i + 1).depth else []
  {
    var s := rec.samples[i];
    gq' := PushGq(hdr, s, gq);
    depth' := PushDepth(hdr, s, depth);
    depthRatio' := PushDepthRatio(hdr, s, depthRatio);
    support' := PushSupport(hdr, rec.precise, s, support);
  }

  /** Records the evidence of sample i, a heterozygous carrier. */
  method AddHetCarrier(hdr: Header, rec: Record, i: nat,
                       gq: seq<real>, support: seq<Ratio>, depthRatio: seq<Ratio>)
    returns (gq': seq<real>, support': seq<Ratio>, depthRatio': seq<Ratio>)
    requires i < |rec.samples| && ClassOf(rec.samples[i].gt) == HetCarrier
    requires Holds(hdr, EvidenceOf(hdr, rec, HetCarrier, i), gq, support, depthRatio)
    ensures Holds(hdr, EvidenceOf(hdr, rec, HetCarrier, i + 1), gq', support', depthRatio')
  {
    var s := rec.samples[i];
    gq' := PushGq(hdr, s, gq);
    depthRatio' := PushDepthRatio(hdr, s, depthRatio);
    support' := PushSupport(hdr, rec.precise, s, support);
  }

  /** The seven vectors a pass keeps after the first n samples: those of the
      non-carriers and those of the heterozygous carriers. */
  predicate Collected(hdr: Header, rec: Record, n: nat,
                      gqRef: seq<real>, gqAlt: seq<real>, ratioRef: seq<Ratio>, ratioAlt: seq<Ratio>,
                      rcRefRatio: seq<Ratio>, rcAltRatio: seq<Ratio>, rcRef: seq<real>)
    requires n <= |rec.samples|
  {
    && Holds(hdr, EvidenceOf(hdr, rec, NonCarrier, n), gqRef, ratioRef, rcRefRatio)
    && Holds(hdr, EvidenceOf(hdr, rec, HetCarrier, n), gqAlt, ratioAlt, rcAltRatio)
    && rcRef == if "RC" in hdr.keys then EvidenceOf(hdr, rec, NonCarrier, n).depth else []
  }

  /** Records the evidence of sample i, a called sample: a non-carrier into the
      reference vectors, a heterozygous carrier into the alternate ones; a
      homozygous carrier or an uncalled sample adds nothing. */
  method CollectEvidence(hdr: Header, rec: Record, i: nat,
                         gqRef: seq<real>, gqAlt: seq<real>, ratioRef: seq<Ratio>, ratioAlt: seq<Ratio>,
                         rcRefRatio: seq<Ratio>, rcAltRatio: seq<Ratio>, rcRef: seq<real>)
    returns (gqRef': seq<real>, gqAlt': seq<real>, ratioRef': seq<Ratio>, ratioAlt': seq<Ratio>,
             rcRefRatio': seq<Ratio>, rcAltRatio': seq<Ratio>, rcRef': seq<real>)
    requires SamplesWellFormed(hdr, rec) && i < |rec.samples|
    requires Collected(hdr, rec, i, gqRef, gqAlt, ratioRef, ratioAlt, rcRefRatio, rcAltRatio, rcRef)
    ensures Collected(hdr, rec, i + 1, gqRef', gqAlt', ratioRef', ratioAlt', rcRefRatio', rcAltRatio', rcRef')
  {
    gqRef', gqAlt', ratioRef', ratioAlt', rcRefRatio', rcAltRatio', rcRef' :=
      gqRef, gqAlt, ratioRef, ratioAlt, rcRefRatio, rcAltRatio, rcRef;
    var g := rec.samples[i].gt;
    assert BiallelicAllele(g.first) && BiallelicAllele(g.second);
    if g.first != NoCall && g.second != NoCall {
      var gtType := g.first + g.second;
      if gtType == 0 {
        // Non-carrier
        gqRef', ratioRef', rcRefRatio', rcRef' := AddNonCarrier(hdr, rec, i, gqRef, ratioRef, rcRefRatio, rcRef);
        EvidenceUnchanged(hdr, rec, HetCarrier, i);
      } else if gtType == 1 {
        // Heterozygous carrier
        gqAlt', ratioAlt', rcAltRatio' := AddHetCarrier(hdr, rec, i, gqAlt, ratioAlt, rcAltRatio);
        EvidenceUnchanged(hdr, rec, NonCarrier, i);
      } else {
        EvidenceUnchanged(hdr, rec, NonCarrier, i);
        EvidenceUnchanged(hdr, rec, HetCarrier, i);
      }
    } else {
      EvidenceUnchanged(hdr, rec, NonCarrier, i);
      EvidenceUnchanged(hdr, rec, HetCarrier, i);
    }
  }

  /** Counters and vectors that agree with the first n samples make up the
      state Tallied describes. */
  lemma TallyOfParts(hdr: Header, rec: Record, n: nat, ac: seq<int>, uncalled: int, rareCarrier: string,
                     gqRef: seq<real>, gqAlt: seq<real>, ratioRef: seq<Ratio>, ratioAlt: seq<Ratio>,
                     rcRefRatio: seq<Ratio>, rcAltRatio: seq<Ratio>, rcRef: seq<real>)
    requires SamplesWellFormed(hdr, rec) && n <= |rec.samples|
    requires Counted(hdr, rec, n, ac, uncalled, rareCarrier)
    requires Collected(hdr, rec, n, gqRef, gqAlt, ratioRef, ratioAlt, rcRefRatio, rcAltRatio, rcRef)
    ensures Tally(ac, uncalled, rareCarrier, gqRef, gqAlt, ratioRef, ratioAlt, rcRefRatio, rcAltRatio, rcRef)
            == Tallied(hdr, rec, n)
  {
    assert ac == [ac[0], ac[1]];
  }

  /** The per-sample loop: classifies every sample and accumulates counts, the
      singleton candidate and the evidence vectors. */
  method ClassifySamples(hdr: Header, rec: Record) returns (t: Tally)
    requires SamplesWellFormed(hdr, rec)
    ensures t == Tallied(hdr, rec, |rec.samples|)
  {
    var ac := [0, 0];
    var uncalled := 0;
    var rareCarrier := "";
    var gqRef: seq<real>, gqAlt: seq<real> := [], [];
    var ratioRef: seq<Ratio>, ratioAlt: seq<Ratio> := [], [];
    var rcRefRatio: seq<Ratio>, rcAltRatio: seq<Ratio> := [], [];
    var rcRef: seq<real> := [];
    var i := 0;
    while i < |hdr.sampleNames|
      invariant 0 <= i <= |rec.samples|
      invariant Counted(hdr, rec, i, ac, uncalled, rareCarrier)
      invariant Collected(hdr, rec, i, gqRef, gqAlt, ratioRef, ratioAlt, rcRefRatio, rcAltRatio, rcRef)
    {
      ac, uncalled, rareCarrier := CountSample(hdr, rec, i, ac, uncalled, rareCarrier);
      gqRef, gqAlt, ratioRef, ratioAlt, rcRefRatio, rcAltRatio, rcRef :=
        CollectEvidence(hdr, rec, i, gqRef, gqAlt, ratioRef, ratioAlt, rcRefRatio, rcAltRatio, rcRef);
      i := i + 1;
    }
    TallyOfParts(hdr, rec, i, ac, uncalled, rareCarrier, gqRef, gqAlt, ratioRef, ratioAlt, rcRefRatio, rcAltRatio, rcRef);
    t := Tally(ac, uncalled, rareCarrier, gqRef, gqAlt, ratioRef, ratioAlt, rcRefRatio, rcAltRatio, rcRef);
  }
}
