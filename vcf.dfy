/**
  The decoded view of a variant collection that the statistics read: the
  header's declared keys, the declared type of the per-sample GQ field and the
  sample names, and per record its site fields and one entry per sample.
  Decoding itself is not part of this model.
*/
module Vcf {
  import opened Wrappers
  import opened Missing

  /** Declared scalar type of a per-sample field. */
  datatype ValueType = IntegerType | RealType | OtherType

  /** The header: declared INFO and FORMAT keys, the declared type of GQ, and
      the sample names in column order. */
  datatype Header = Header(keys: set<string>, gqType: ValueType, sampleNames: seq<string>)

  /** The allele index of a call that was not made. */
  const NoCall: int := -1

  /** A sample's genotype call: its two decoded allele indices. */
  datatype Genotype = Genotype(first: int, second: int)

  /** A sample's decoded per-sample fields. A field the header does not declare
      is never read. */
  datatype Sample = Sample(
    gt: Genotype,
    gqInt: Int32, gqFloat: Float,   // GQ, in whichever encoding the header declares
    rc: Int32, rcl: Int32, rcr: Int32,   // baseline read count and its flanks
    dv: Int32, dr: Int32,   // discordant pairs supporting alt / ref
    rv: Int32, rr: Int32)   // split reads supporting alt / ref

  /** One record. pos is 0-based (POS - 1), so a telomeric record at POS 0
      has pos -1; the INFO values are those decoded for this record (None
      when not decoded). */
  datatype Record = Record(
    chrom: string, pos: int, id: string,
    end: Option<int>, insLen: Option<int>, svType: Option<string>,
    ciPos: Option<(int, int)>,
    fic: Option<Float>, rsq: Option<Float>, hwePval: Option<Float>,
    precise: bool,
    samples: seq<Sample>)

  /** An allele index the biallelic counting handles: no call, 0 or 1. */
  predicate BiallelicAllele(a: int) {
    a == NoCall || a == 0 || a == 1
  }

  /** One call per named sample, each allele no-call, reference or alternate. */
  predicate SamplesWellFormed(hdr: Header, rec: Record) {
    && |rec.samples| == |hdr.sampleNames|
    && forall i :: 0 <= i < |rec.samples| ==>
         BiallelicAllele(rec.samples[i].gt.first) && BiallelicAllele(rec.samples[i].gt.second)
  }

  /** Every INFO value the row prints is decoded exactly when its key is
      declared, and an insertion carries its length. */
  predicate InfoWellFormed(hdr: Header, rec: Record) {
    && (rec.end.Some? <==> "END" in hdr.keys)
    && ("INSLEN" !in hdr.keys ==> rec.insLen.None?)
    && (rec.svType == Some("INS") ==> rec.insLen.Some?)
    && (rec.svType.Some? <==> "SVTYPE" in hdr.keys)
    && (rec.ciPos.Some? <==> "CIPOS" in hdr.keys)
    && (rec.fic.Some? <==> "FIC" in hdr.keys)
    && (rec.rsq.Some? <==> "RSQ" in hdr.keys)
    && (rec.hwePval.Some? <==> "HWEpval" in hdr.keys)
  }
}
