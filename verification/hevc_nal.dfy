/** An optional value. */
module Optional {
  datatype Option<T> = None | Some(value: T)
}

/**
  The NAL unit types of ITU-T H.265 Table 7-1 as libavcodec/hevc.h names
  them (`enum NALUnitType`), and the picture classes the decoder tests with
  `IS_IDR`, `IS_BLA` and `IS_IRAP`.

  `nal_unit_type` is the 6-bit field of the NAL unit header, so the macros
  see every value from 0 to 63, including the reserved ones the enumeration
  does not name.
 */
module HevcNal {
  import opened Optional

  /** The 6-bit `nal_unit_type` of a NAL unit header. */
  type NalUnitType = x: int | 0 <= x < 64

  /** The enumerators of `enum NALUnitType`. */
  datatype NalName =
    | TrailN | TrailR | TsaN | TsaR | StsaN | StsaR | RadlN | RadlR | RaslN | RaslR
    | BlaWLp | BlaWRadl | BlaNLp | IdrWRadl | IdrNLp | CraNut
    | Vps | Sps | Pps | Aud | EosNut | EobNut | FdNut | SeiPrefix | SeiSuffix

  /** The value of each enumerator. */
  function Code(n: NalName): NalUnitType {
    match n
    case TrailN => 0
    case TrailR => 1
    case TsaN => 2
    case TsaR => 3
    case StsaN => 4
    case StsaR => 5
    case RadlN => 6
    case RadlR => 7
    case RaslN => 8
    case RaslR => 9
    case BlaWLp => 16
    case BlaWRadl => 17
    case BlaNLp => 18
    case IdrWRadl => 19
    case IdrNLp => 20
    case CraNut => 21
    case Vps => 32
    case Sps => 33
    case Pps => 34
    case Aud => 35
    case EosNut => 36
    case EobNut => 37
    case FdNut => 38
    case SeiPrefix => 39
    case SeiSuffix => 40
  }

  /** Every enumerator, in declaration order. */
  const AllNames: seq<NalName> := [
    TrailN, TrailR, TsaN, TsaR, StsaN, StsaR, RadlN, RadlR, RaslN, RaslR,
    BlaWLp, BlaWRadl, BlaNLp, IdrWRadl, IdrNLp, CraNut,
    Vps, Sps, Pps, Aud, EosNut, EobNut, FdNut, SeiPrefix, SeiSuffix]

  /** The enumerator with value `t`, searched for in `names`; none for a value the enumeration leaves unnamed. */
  function Lookup(names: seq<NalName>, t: int): (r: Option<NalName>)
    ensures r.Some? ==> r.value in names && Code(r.value) == t
    ensures r.None? ==> forall i :: 0 <= i < |names| ==> Code(names[i]) != t
  {
    if |names| == 0 then None
    else if Code(names[0]) == t then Some(names[0])
    else Lookup(names[1..], t)
  }

  /** The enumerator naming `t`, if there is one. */
  function NameOf(t: int): Option<NalName> {
    Lookup(AllNames, t)
  }

  /** The enumeration lists every name. */
  lemma AllNamesComplete(n: NalName)
    ensures n in AllNames
  {
  }

  /** No two enumerators share a value. */
  lemma CodeInjective(n: NalName, m: NalName)
    requires Code(n) == Code(m)
    ensures n == m
  {
  }

  /** Looking a name's value up gives the name back. */
  lemma NameOfCode(n: NalName)
    ensures NameOf(Code(n)) == Some(n)
  {
    AllNamesComplete(n);
    var r := NameOf(Code(n));
    if r.Some? {
      CodeInjective(r.value, n);
    }
  }

  /** The values the enumeration names are 0 to 9, 16 to 21 and 32 to 40. */
  lemma NamedValues(t: int)
    ensures NameOf(t).Some? <==> (0 <= t <= 9 || 16 <= t <= 21 || 32 <= t <= 40)
  {
    var r := NameOf(t);
    if r.Some? {
      CodeValues(r.value);
    } else if 0 <= t <= 9 || 16 <= t <= 21 || 32 <= t <= 40 {
      var n := Named(t);
      NameOfCode(n);
    }
  }

  /** Every enumerator's value lies in 0 to 9, 16 to 21 or 32 to 40. */
  lemma CodeValues(n: NalName)
    ensures 0 <= Code(n) <= 9 || 16 <= Code(n) <= 21 || 32 <= Code(n) <= 40
  {
  }

  /** An enumerator with value `t`, for each value the enumeration names. */
  lemma Named(t: int) returns (n: NalName)
    requires 0 <= t <= 9 || 16 <= t <= 21 || 32 <= t <= 40
    ensures Code(n) == t
  {
    n := AllNames[if t <= 9 then t else if t <= 21 then t - 6 else t - 16];
  }

  /** `IS_IDR`: an IDR picture, NAL_IDR_W_RADL or NAL_IDR_N_LP. */
  predicate IsIdr(t: int)
    ensures IsIdr(t) <==> t == 19 || t == 20
    ensures IsIdr(t) ==> !IsBla(t)
  {
    t == Code(IdrWRadl) || t == Code(IdrNLp)
  }

  /** `IS_BLA`: a BLA picture, NAL_BLA_W_RADL, NAL_BLA_W_LP or NAL_BLA_N_LP. */
  predicate IsBla(t: int)
    ensures IsBla(t) <==> 16 <= t <= 18
  {
    t == Code(BlaWRadl) || t == Code(BlaWLp) || t == Code(BlaNLp)
  }

  /**
    `IS_IRAP`: an IRAP picture, any type from 16 to 23: exactly BLA, IDR,
    CRA or the two reserved IRAP types 22 and 23 (RSV_IRAP_VCL22 and
    RSV_IRAP_VCL23 of Table 7-1).
   */
  predicate IsIrap(t: int)
    ensures IsIrap(t) <==> IsBla(t) || IsIdr(t) || t == Code(CraNut) || t == 22 || t == 23
  {
    t >= 16 && t <= 23
  }

  /** IDR and BLA are IRAP. */
  lemma IrapPartition(t: int)
    ensures IsIdr(t) ==> IsIrap(t)
    ensures IsBla(t) ==> IsIrap(t)
  {
  }

  /** CRA is IRAP but neither IDR nor BLA. */
  lemma CraIsIrapOnly()
    ensures IsIrap(Code(CraNut)) && !IsIdr(Code(CraNut)) && !IsBla(Code(CraNut))
  {
  }

  /** Among the named types, the IRAP pictures are exactly the BLA, IDR and CRA enumerators. */
  lemma IrapByName(n: NalName)
    ensures IsIrap(Code(n)) <==> n in {BlaWLp, BlaWRadl, BlaNLp, IdrWRadl, IdrNLp, CraNut}
    ensures IsIdr(Code(n)) <==> n in {IdrWRadl, IdrNLp}
    ensures IsBla(Code(n)) <==> n in {BlaWLp, BlaWRadl, BlaNLp}
  {
  }

  /*
    The RPI decoder's copies of the macros (libavcodec/rpi_hevcdec.h) test
    the `HEVC_NAL_*` names of the newer `enum HEVCNALUnitType`, which neither
    hevc.h nor rpi_hevcdec.h declares; their values are those of Table 7-1 of H.265.
   */
  const HEVC_NAL_BLA_W_LP: NalUnitType := 16
  const HEVC_NAL_BLA_W_RADL: NalUnitType := 17
  const HEVC_NAL_BLA_N_LP: NalUnitType := 18
  const HEVC_NAL_IDR_W_RADL: NalUnitType := 19
  const HEVC_NAL_IDR_N_LP: NalUnitType := 20

  /** `IS_IDR` of the RPI decoder; it classifies every type as hevc.h does. */
  predicate RpiIsIdr(t: int)
    ensures RpiIsIdr(t) <==> IsIdr(t)
  {
    t == HEVC_NAL_IDR_W_RADL || t == HEVC_NAL_IDR_N_LP
  }

  /** `IS_BLA` of the RPI decoder; it classifies every type as hevc.h does. */
  predicate RpiIsBla(t: int)
    ensures RpiIsBla(t) <==> IsBla(t)
  {
    t == HEVC_NAL_BLA_W_RADL || t == HEVC_NAL_BLA_W_LP || t == HEVC_NAL_BLA_N_LP
  }

  /** `IS_IRAP` of the RPI decoder; it classifies every type as hevc.h does. */
  predicate RpiIsIrap(t: int)
    ensures RpiIsIrap(t) <==> IsIrap(t)
  {
    t >= 16 && t <= 23
  }
}
