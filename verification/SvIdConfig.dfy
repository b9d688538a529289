/** The satellite blacklist converters of gps/gnss/GnssAdapter.cpp: a list of satellite ids against six
  * 64-bit masks, one for each constellation. Both directions are explained by one relation, `Names`,
  * which says what bit of what mask an entry of the list stands for; the round trips follow.
  */
module SvIdConfig {

  // ---------------------------------------------------------------- 64-bit masks

  const TWO_TO_THE_64: nat := 0x1_0000_0000_0000_0000
  // GNSS_SV_CONFIG_ALL_BITS_ENABLED_MASK
  const ALL_BITS: nat := 0xFFFF_FFFF_FFFF_FFFF

  type uint64 = m: nat | m < TWO_TO_THE_64

  /** (m >> i) & 1 */
  predicate Bit(m: nat, i: nat) {
    if i == 0 then m % 2 == 1 else Bit(m / 2, i - 1)
  }

  /** m | (1 << k) */
  function SetBit(m: nat, k: nat): nat {
    if k == 0 then (if m % 2 == 1 then m else m + 1) else 2 * SetBit(m / 2, k - 1) + m % 2
  }

  /** m >> k */
  function ShiftRight(m: nat, k: nat): (r: nat)
    ensures r <= m
  {
    if k == 0 then m else ShiftRight(m / 2, k - 1)
  }

  /** m << k, keeping 64 bits */
  function ShiftLeft(m: uint64, k: nat): uint64
    decreases k
  {
    if k == 0 then m else ShiftLeft((2 * m) % TWO_TO_THE_64, k - 1)
  }

  function Pow2(n: nat): (p: nat)
    ensures p >= 1
  {
    if n == 0 then 1 else 2 * Pow2(n - 1)
  }

  lemma {:induction false} BitOfSetBit(m: nat, k: nat, i: nat)
    ensures Bit(SetBit(m, k), i) <==> i == k || Bit(m, i)
  {
    if k == 0 {
      assert i > 0 ==> SetBit(m, 0) / 2 == m / 2;
    } else if i > 0 {
      BitOfSetBit(m / 2, k - 1, i - 1);
    }
  }

  lemma {:induction false} SetBitBelow(m: nat, k: nat, n: nat)
    requires k < n && m < Pow2(n)
    ensures SetBit(m, k) < Pow2(n)
  {
    var half := Pow2(n - 1);
    assert Pow2(n) == 2 * half && m / 2 < half;
    if k > 0 {
      SetBitBelow(m / 2, k - 1, n - 1);
      assert SetBit(m, k) == 2 * SetBit(m / 2, k - 1) + m % 2 <= 2 * (half - 1) + 1;
    }
  }

  lemma Pow2Of64()
    ensures Pow2(64) == TWO_TO_THE_64
  {
    assert Pow2(4) == 16 by { assert Pow2(2) == 4; Pow2Adds(2, 2); }
    assert Pow2(16) == 0x1_0000 by { Pow2Adds(4, 4); Pow2Adds(8, 8); }
    assert Pow2(32) == 0x1_0000_0000 by { Pow2Adds(16, 16); }
    Pow2Adds(32, 32);
  }

  lemma {:induction false} Pow2Adds(a: nat, b: nat)
    ensures Pow2(a + b) == Pow2(a) * Pow2(b)
  {
    if a > 0 {
      Pow2Adds(a - 1, b);
    }
  }

  lemma {:induction false} NoBitAbove(m: nat, n: nat, i: nat)
    requires m < Pow2(n) && n <= i
    ensures !Bit(m, i)
  {
    if n == 0 {
      ZeroHasNoBit(i);
    } else {
      NoBitAbove(m / 2, n - 1, i - 1);
    }
  }

  lemma {:induction false} ZeroHasNoBit(i: nat)
    ensures !Bit(0, i)
  {
    if i > 0 { ZeroHasNoBit(i - 1); }
  }

  lemma {:induction false} AllOnes(n: nat, i: nat)
    requires i < n
    ensures Bit(Pow2(n) - 1, i)
  {
    assert (Pow2(n) - 1) / 2 == Pow2(n - 1) - 1;
    if i > 0 { AllOnes(n - 1, i - 1); }
  }

  /** A number is its bits. */
  lemma {:induction false} SameBits(a: nat, b: nat)
    requires forall i: nat :: Bit(a, i) <==> Bit(b, i)
    ensures a == b
    decreases a + b
  {
    if a + b > 0 {
      assert Bit(a, 0) <==> Bit(b, 0);
      forall i: nat ensures Bit(a / 2, i) <==> Bit(b / 2, i) {
        assert Bit(a, i + 1) <==> Bit(b, i + 1);
      }
      SameBits(a / 2, b / 2);
    }
  }

  lemma {:induction false} BitOfShiftRight(m: nat, k: nat, i: nat)
    ensures Bit(ShiftRight(m, k), i) <==> Bit(m, i + k)
  {
    if k > 0 { BitOfShiftRight(m / 2, k - 1, i); }
  }

  lemma {:induction false} BitOfModulo(m: nat, n: nat, i: nat)
    ensures Bit(m % Pow2(n), i) <==> i < n && Bit(m, i)
  {
    if n == 0 {
      ZeroHasNoBit(i);
    } else {
      var low := (m / 2) % Pow2(n - 1);
      HalfOfModulo(m, Pow2(n - 1));
      assert m % Pow2(n) == 2 * low + m % 2;
      Halves(low, m % 2);
      if i > 0 {
        BitOfModulo(m / 2, n - 1, i - 1);
      }
    }
  }

  lemma Halves(a: nat, r: nat)
    requires r < 2
    ensures (2 * a + r) / 2 == a && (2 * a + r) % 2 == r
  {
  }

  lemma HalfOfModulo(m: nat, p: nat)
    requires p > 0
    ensures m % (2 * p) == 2 * ((m / 2) % p) + m % 2
  {
    var q, r := (m / 2) / p, (m / 2) % p;
    assert m == 2 * (q * p + r) + m % 2;
    assert m == q * (2 * p) + (2 * r + m % 2);
    QuotientUnique(m, 2 * p, q, 2 * r + m % 2);
  }

  lemma QuotientUnique(m: nat, d: nat, q: nat, r: nat)
    requires d > 0 && r < d && m == q * d + r
    ensures m % d == r
  {
    var q', r' := m / d, m % d;
    assert m == q' * d + r';
    var k := q - q';
    assert k * d == r' - r;
    assert k >= 1 ==> k * d >= d;
    assert k <= -1 ==> k * d + d <= 0;
  }

  lemma {:induction false} BitOfShiftLeft(m: uint64, k: nat, i: nat)
    ensures Bit(ShiftLeft(m, k), i) <==> k <= i < 64 && Bit(m, i - k)
    decreases k
  {
    Pow2Of64();
    if k == 0 {
      if i >= 64 { NoBitAbove(m, 64, i); }
    } else {
      var doubled := (2 * m) % TWO_TO_THE_64;
      BitOfShiftLeft(doubled, k - 1, i);
      if k - 1 <= i < 64 {
        BitOfModulo(2 * m, 64, i - (k - 1));
      }
    }
  }

  // ---------------------------------------------------------------- lists and configurations

  datatype SvType = Unknown | Gps | Sbas | Glonass | Qzss | Beidou | Galileo | Navic

  datatype SvIdSource = SvIdSource(constellation: SvType, svId: nat)

  datatype Config = Config(glo: uint64, bds: uint64, qzss: uint64, gal: uint64, sbas: uint64, navic: uint64) {
    function Get(t: SvType): uint64 {
      match t
      case Glonass => glo
      case Beidou => bds
      case Qzss => qzss
      case Galileo => gal
      case Sbas => sbas
      case Navic => navic
      case _ => 0
    }

    function Put(t: SvType, m: uint64): Config {
      match t
      case Glonass => this.(glo := m)
      case Beidou => this.(bds := m)
      case Qzss => this.(qzss := m)
      case Galileo => this.(gal := m)
      case Sbas => this.(sbas := m)
      case Navic => this.(navic := m)
      case _ => this
    }
  }

  const CLEARED := Config(0, 0, 0, 0, 0, 0)

  const GLO_INITIAL_SV_ID := 65
  const BDS_INITIAL_SV_ID := 201
  const QZSS_INITIAL_SV_ID := 193
  const GAL_INITIAL_SV_ID := 301
  const NAVIC_INITIAL_SV_ID := 401
  const SBAS_INITIAL_SV_ID := 120
  const SBAS_INITIAL_SV_LENGTH := 39
  const SBAS_INITIAL2_SV_ID := 183

  predicate HasMask(t: SvType) { t != Unknown && t != Gps }

  function InitialSvId(t: SvType): nat
    requires HasMask(t)
  {
    match t
    case Glonass => GLO_INITIAL_SV_ID
    case Beidou => BDS_INITIAL_SV_ID
    case Qzss => QZSS_INITIAL_SV_ID
    case Galileo => GAL_INITIAL_SV_ID
    case Navic => NAVIC_INITIAL_SV_ID
    case Sbas => SBAS_INITIAL_SV_ID
  }

  /** The satellite id that bit i of a constellation's mask stands for; SBAS has two id ranges. */
  function SvIdOf(t: SvType, i: nat): nat
    requires HasMask(t)
  {
    if t == Sbas && i >= SBAS_INITIAL_SV_LENGTH then SBAS_INITIAL2_SV_ID + (i - SBAS_INITIAL_SV_LENGTH)
    else InitialSvId(t) + i
  }

  /** The entry stands for bit i of t's mask: by its id, or because id 0 stands for all of them. */
  predicate Names(s: SvIdSource, t: SvType, i: nat) {
    s.constellation == t && HasMask(t) && i < 64 && (s.svId == 0 || s.svId == SvIdOf(t, i))
  }

  ghost predicate Listed(sources: seq<SvIdSource>, t: SvType, i: nat) {
    exists s :: s in sources && Names(s, t, i)
  }

  /** SBAS ids this far above the second range shift by 64 or more, which the language leaves undefined. */
  predicate ShiftIsDefined(s: SvIdSource) {
    !(s.constellation == Sbas && SBAS_INITIAL2_SV_ID + 25 <= s.svId < SBAS_INITIAL2_SV_ID + 64)
  }

  // ---------------------------------------------------------------- list to masks

  /** The shift of one entry, or -1 when the entry sets no single bit. */
  function ShiftCount(s: SvIdSource): (k: int)
    requires ShiftIsDefined(s) && HasMask(s.constellation)
    ensures -1 <= k < 64
  {
    if s.constellation == Sbas then
      if SBAS_INITIAL2_SV_ID <= s.svId < SBAS_INITIAL2_SV_ID + 64 then
        s.svId + SBAS_INITIAL_SV_LENGTH - SBAS_INITIAL2_SV_ID
      else if SBAS_INITIAL_SV_ID <= s.svId < SBAS_INITIAL_SV_ID + SBAS_INITIAL_SV_LENGTH then
        s.svId - SBAS_INITIAL_SV_ID
      else -1
    else
      var initial := InitialSvId(s.constellation);
      if initial <= s.svId < initial + 64 then s.svId - initial else -1
  }

  function Add(c: Config, s: SvIdSource): Config
    requires ShiftIsDefined(s)
  {
    var t := s.constellation;
    if !HasMask(t) then c
    else if s.svId == 0 then c.Put(t, ALL_BITS)
    else if ShiftCount(s) < 0 then c
    else
      Pow2Of64();
      SetBitBelow(c.Get(t), ShiftCount(s), 64);
      c.Put(t, SetBit(c.Get(t), ShiftCount(s)))
  }

  function AddAll(c: Config, sources: seq<SvIdSource>): Config
    requires forall s :: s in sources ==> ShiftIsDefined(s)
  {
    if sources == [] then c else
      assert sources[|sources| - 1] in sources;
      Add(AddAll(c, sources[..|sources| - 1]), sources[|sources| - 1])
  }

  /** One entry of the conversion; defined tells whether the language says what its shift does. */
  method ConvertEntry(source: SvIdSource, config: Config) returns (out: Config, defined: bool)
    ensures defined <==> ShiftIsDefined(source)
    ensures defined ==> out == Add(config, source)
  {
    out, defined := config, true;
    var initialSvId, svIndexOffset, known := 0, 0, true;
    match source.constellation {
      case Glonass => initialSvId := GLO_INITIAL_SV_ID;
      case Beidou => initialSvId := BDS_INITIAL_SV_ID;
      case Qzss => initialSvId := QZSS_INITIAL_SV_ID;
      case Galileo => initialSvId := GAL_INITIAL_SV_ID;
      case Navic => initialSvId := NAVIC_INITIAL_SV_ID;
      case Sbas =>
        if source.svId == 0 {
        } else if source.svId >= SBAS_INITIAL2_SV_ID {
          initialSvId := SBAS_INITIAL2_SV_ID;
          svIndexOffset := SBAS_INITIAL_SV_LENGTH;
        } else if SBAS_INITIAL_SV_ID <= source.svId < SBAS_INITIAL_SV_ID + SBAS_INITIAL_SV_LENGTH {
          initialSvId := SBAS_INITIAL_SV_ID;
        } else {
          known := false;
        }
      case _ => known := false;
    }
    if known {
      if source.svId == 0 {
        out := out.Put(source.constellation, ALL_BITS);
      } else if source.svId < initialSvId || source.svId >= initialSvId + 64 {
      } else {
        var shiftCnt := source.svId + svIndexOffset - initialSvId;
        if shiftCnt >= 64 {
          return config, false;
        }
        Pow2Of64();
        SetBitBelow(out.Get(source.constellation), shiftCnt, 64);
        out := out.Put(source.constellation, SetBit(out.Get(source.constellation), shiftCnt));
      }
    }
  }

  /** convertToGnssSvIdConfig: the masks, and whether there is anything in them (or nothing was asked). The
    * result is defined exactly when every shift is.
    */
  method ConvertToGnssSvIdConfig(sources: seq<SvIdSource>, config: Config)
    returns (out: Config, retVal: bool, defined: bool)
    ensures defined <==> forall s :: s in sources ==> ShiftIsDefined(s)
    ensures defined ==> out == if sources == [] then CLEARED else AddAll(config, sources)
    ensures defined ==> (retVal <==> sources == [] || out != CLEARED)
  {
    out, retVal, defined := config, false, true;
    if |sources| == 0 {
      out := CLEARED;
      retVal := true;
    } else {
      for n := 0 to |sources|
        invariant forall s :: s in sources[..n] ==> ShiftIsDefined(s)
        invariant out == AddAll(config, sources[..n])
      {
        var next, ok := ConvertEntry(sources[n], out);
        assert sources[..n + 1][..n] == sources[..n] && sources[n] in sources;
        if !ok {
          return out, false, false;
        }
        out := next;
      }
      assert sources[..|sources|] == sources;
      retVal := out.glo != 0 || out.bds != 0 || out.gal != 0 || out.qzss != 0 || out.sbas != 0 || out.navic != 0;
    }
  }

  // ---------------------------------------------------------------- masks to list

  function EntryId(t: SvType, initialSvId: nat, bit: nat): nat {
    if t == Sbas && bit >= SBAS_INITIAL_SV_LENGTH then bit - SBAS_INITIAL_SV_LENGTH + SBAS_INITIAL2_SV_ID
    else bit + initialSvId
  }

  function BitEntries(mask: nat, bit: nat, t: SvType, initialSvId: nat): seq<SvIdSource> {
    if mask == 0 then [] else
      (if mask % 2 == 1 then [SvIdSource(t, EntryId(t, initialSvId, bit))] else [])
      + BitEntries(mask / 2, bit + 1, t, initialSvId)
  }

  function MaskEntries(mask: nat, t: SvType, initialSvId: nat): seq<SvIdSource> {
    if mask == ALL_BITS then [SvIdSource(t, 0)] else BitEntries(mask, 0, t, initialSvId)
  }

  /** convertGnssSvIdMaskToList */
  method ConvertGnssSvIdMaskToList(svIdMask: uint64, svIds: seq<SvIdSource>, initialSvId: nat, t: SvType)
    returns (out: seq<SvIdSource>)
    ensures out == svIds + MaskEntries(svIdMask, t, initialSvId)
  {
    if svIdMask == ALL_BITS {
      return svIds + [SvIdSource(t, 0)];
    }
    out := svIds;
    var mask, bitNumber := svIdMask, 0;
    while mask > 0
      invariant out + BitEntries(mask, bitNumber, t, initialSvId) == svIds + BitEntries(svIdMask, 0, t, initialSvId)
    {
      var rest := BitEntries(mask / 2, bitNumber + 1, t, initialSvId);
      if mask % 2 == 1 {
        var svId := bitNumber + initialSvId;
        if t == Sbas {
          if bitNumber >= SBAS_INITIAL_SV_LENGTH {
            svId := bitNumber - SBAS_INITIAL_SV_LENGTH + SBAS_INITIAL2_SV_ID;
          }
        }
        assert out + ([SvIdSource(t, svId)] + rest) == (out + [SvIdSource(t, svId)]) + rest;
        out := out + [SvIdSource(t, svId)];
      } else {
        assert [] + rest == rest;
      }
      bitNumber := bitNumber + 1;
      mask := mask / 2;
    }
    assert out + [] == out;
  }

  /** The low 39 bits of the SBAS mask by shifting them up and down again, and the bits above. */
  function SbasLow(mask: uint64): nat {
    ShiftRight(ShiftLeft(mask, 64 - SBAS_INITIAL_SV_LENGTH), 64 - SBAS_INITIAL_SV_LENGTH)
  }

  function SbasHigh(mask: uint64): nat { ShiftRight(mask, SBAS_INITIAL_SV_LENGTH) }

  function EntriesOf(c: Config, t: SvType): seq<SvIdSource> {
    if !HasMask(t) || c.Get(t) == 0 then []
    else if t == Sbas then
      MaskEntries(SbasLow(c.sbas), Sbas, SBAS_INITIAL_SV_ID) + MaskEntries(SbasHigh(c.sbas), Sbas, SBAS_INITIAL2_SV_ID)
    else MaskEntries(c.Get(t), t, InitialSvId(t))
  }

  function FromConfig(c: Config): seq<SvIdSource> {
    EntriesOf(c, Beidou) + EntriesOf(c, Galileo) + EntriesOf(c, Glonass) + EntriesOf(c, Qzss) + EntriesOf(c, Sbas)
    + EntriesOf(c, Navic)
  }

  lemma Reassociate<T>(a: seq<T>, b: seq<T>, c: seq<T>)
    ensures a + (b + c) == (a + b) + c
  {
  }

  /** Writing behind what is already in the list, block by block. */
  lemma WriteAll(svIds: seq<SvIdSource>, c: Config)
    ensures svIds + FromConfig(c) ==
            svIds + EntriesOf(c, Beidou) + EntriesOf(c, Galileo) + EntriesOf(c, Glonass) + EntriesOf(c, Qzss)
            + EntriesOf(c, Sbas) + EntriesOf(c, Navic)
  {
    var b2 := EntriesOf(c, Beidou) + EntriesOf(c, Galileo);
    var b3 := b2 + EntriesOf(c, Glonass);
    var b4 := b3 + EntriesOf(c, Qzss);
    var b5 := b4 + EntriesOf(c, Sbas);
    Reassociate(svIds, b5, EntriesOf(c, Navic));
    Reassociate(svIds, b4, EntriesOf(c, Sbas));
    Reassociate(svIds, b3, EntriesOf(c, Qzss));
    Reassociate(svIds, b2, EntriesOf(c, Glonass));
    Reassociate(svIds, EntriesOf(c, Beidou), EntriesOf(c, Galileo));
  }

  /** The entries of one constellation, if its mask has any bit. */
  method ConvertOne(c: Config, t: SvType, svIds: seq<SvIdSource>) returns (out: seq<SvIdSource>)
    requires HasMask(t)
    ensures out == svIds + EntriesOf(c, t)
  {
    out := svIds;
    if c.Get(t) != 0 {
      if t == Sbas {
        var low := MaskEntries(SbasLow(c.sbas), Sbas, SBAS_INITIAL_SV_ID);
        var high := MaskEntries(SbasHigh(c.sbas), Sbas, SBAS_INITIAL2_SV_ID);
        // operate on the first range, then on the second
        var sbasMask := ShiftLeft(c.sbas, 64 - SBAS_INITIAL_SV_LENGTH);
        sbasMask := ShiftRight(sbasMask, 64 - SBAS_INITIAL_SV_LENGTH);
        out := ConvertGnssSvIdMaskToList(sbasMask, out, SBAS_INITIAL_SV_ID, Sbas);
        sbasMask := c.sbas;
        sbasMask := ShiftRight(sbasMask, SBAS_INITIAL_SV_LENGTH);
        out := ConvertGnssSvIdMaskToList(sbasMask, out, SBAS_INITIAL2_SV_ID, Sbas);
        assert svIds + low + high == svIds + (low + high);
      } else {
        out := ConvertGnssSvIdMaskToList(c.Get(t), out, InitialSvId(t), t);
      }
    }
  }

  /** convertFromGnssSvIdConfig: six blocks in a fixed order. */
  method ConvertFromGnssSvIdConfig(c: Config, svIds: seq<SvIdSource>) returns (out: seq<SvIdSource>)
    ensures out == svIds + FromConfig(c)
  {
    WriteAll(svIds, c);
    out := ConvertOne(c, Beidou, svIds);
    out := ConvertOne(c, Galileo, out);
    out := ConvertOne(c, Glonass, out);
    out := ConvertOne(c, Qzss, out);
    out := ConvertOne(c, Sbas, out);
    out := ConvertOne(c, Navic, out);
  }

  // ---------------------------------------------------------------- what the two directions mean

  lemma BitOfAll(i: nat)
    ensures Bit(ALL_BITS, i) <==> i < 64
  {
    Pow2Of64();
    if i < 64 { AllOnes(64, i); } else { NoBitAbove(ALL_BITS, 64, i); }
  }

  /** One entry sets exactly the bits it names. */
  lemma AddSetsNamedBits(c: Config, s: SvIdSource, t: SvType, i: nat)
    requires ShiftIsDefined(s) && i < 64
    ensures Bit(Add(c, s).Get(t), i) <==> Bit(c.Get(t), i) || Names(s, t, i)
  {
    ZeroHasNoBit(i);
    BitOfAll(i);
    if HasMask(s.constellation) && s.svId != 0 && ShiftCount(s) >= 0 {
      BitOfSetBit(c.Get(s.constellation), ShiftCount(s), i);
    }
  }

  lemma {:induction false} ListSetsNamedBits(c: Config, sources: seq<SvIdSource>, t: SvType, i: nat)
    requires (forall s :: s in sources ==> ShiftIsDefined(s)) && i < 64
    ensures Bit(AddAll(c, sources).Get(t), i) <==> Bit(c.Get(t), i) || Listed(sources, t, i)
  {
    if sources != [] {
      var init, last := sources[..|sources| - 1], sources[|sources| - 1];
      assert sources == init + [last];
      ListSetsNamedBits(c, init, t, i);
      AddSetsNamedBits(AddAll(c, init), last, t, i);
    }
  }

  /** Every entry of a mask is the id of one of its bits. */
  lemma {:induction false} EntryHasBit(mask: nat, bit: nat, t: SvType, initialSvId: nat, s: SvIdSource) returns (b: nat)
    requires s in BitEntries(mask, bit, t, initialSvId)
    ensures s.constellation == t && Bit(mask, b) && s.svId == EntryId(t, initialSvId, bit + b)
  {
    if mask % 2 == 1 && s == SvIdSource(t, EntryId(t, initialSvId, bit)) {
      b := 0;
    } else {
      b := EntryHasBit(mask / 2, bit + 1, t, initialSvId, s);
      b := b + 1;
    }
  }

  /** Every bit of a mask has its entry. */
  lemma {:induction false} BitHasEntry(mask: nat, bit: nat, t: SvType, initialSvId: nat, b: nat)
    requires Bit(mask, b)
    ensures SvIdSource(t, EntryId(t, initialSvId, bit + b)) in BitEntries(mask, bit, t, initialSvId)
  {
    if mask == 0 {
      ZeroHasNoBit(b);
    } else if b > 0 {
      BitHasEntry(mask / 2, bit + 1, t, initialSvId, b - 1);
      assert bit + 1 + (b - 1) == bit + b;
    }
  }

  /** Bits of `mask` are bits from `base` on of t's full mask. */
  lemma MaskEntriesListBits(mask: uint64, t: SvType, initialSvId: nat, base: nat, i: nat)
    requires HasMask(t) && i < 64
    requires initialSvId == SvIdOf(t, base)
    requires t == Sbas ==> (base == 0 && mask != ALL_BITS) || base == SBAS_INITIAL_SV_LENGTH
    requires t != Sbas ==> base == 0
    requires forall b: nat :: Bit(mask, b) ==> base + b < if t == Sbas && base == 0 then SBAS_INITIAL_SV_LENGTH else 64
    requires mask == ALL_BITS ==> base == 0
    ensures Listed(MaskEntries(mask, t, initialSvId), t, i) <==> base <= i && Bit(mask, i - base)
    ensures forall s :: s in MaskEntries(mask, t, initialSvId) ==> s.constellation == t && ShiftIsDefined(s)
  {
    var entries := MaskEntries(mask, t, initialSvId);
    if mask == ALL_BITS {
      BitOfAll(i);
      assert entries[0] in entries && Names(entries[0], t, i);
    } else {
      forall s | s in entries
        ensures s.constellation == t && ShiftIsDefined(s) && (Names(s, t, i) ==> base <= i && Bit(mask, i - base))
      {
        var b := EntryHasBit(mask, 0, t, initialSvId, s);
        assert s.svId == SvIdOf(t, base + b);
      }
      if base <= i && Bit(mask, i - base) {
        BitHasEntry(mask, 0, t, initialSvId, i - base);
        assert Names(SvIdSource(t, EntryId(t, initialSvId, i - base)), t, i);
      }
    }
  }

  lemma SbasHalves(mask: uint64, i: nat)
    ensures Bit(SbasLow(mask), i) <==> i < SBAS_INITIAL_SV_LENGTH && Bit(mask, i)
    ensures Bit(SbasHigh(mask), i) <==> Bit(mask, i + SBAS_INITIAL_SV_LENGTH)
  {
    BitOfShiftRight(ShiftLeft(mask, 25), 25, i);
    BitOfShiftLeft(mask, 25, i + 25);
    BitOfShiftRight(mask, SBAS_INITIAL_SV_LENGTH, i);
  }

  /** The entries written for a constellation list exactly the bits of its mask. */
  lemma EntriesListBits(c: Config, t: SvType, i: nat)
    requires HasMask(t) && i < 64
    ensures Listed(EntriesOf(c, t), t, i) <==> Bit(c.Get(t), i)
    ensures forall s :: s in EntriesOf(c, t) ==> s.constellation == t && ShiftIsDefined(s)
  {
    ZeroHasNoBit(i);
    if c.Get(t) != 0 {
      if t == Sbas {
        SbasEntriesListBits(c, i);
      } else {
        forall b: nat ensures Bit(c.Get(t), b) ==> b < 64 { NoBitFrom64(c.Get(t), b); }
        MaskEntriesListBits(c.Get(t), t, InitialSvId(t), 0, i);
      }
    }
  }

  lemma NoBitFrom64(m: uint64, b: nat)
    ensures Bit(m, b) ==> b < 64
  {
    Pow2Of64();
    if b >= 64 { NoBitAbove(m, 64, b); }
  }

  /** The two halves of the SBAS mask, each with its own id range. */
  lemma SbasEntriesListBits(c: Config, i: nat)
    requires i < 64 && c.sbas != 0
    ensures Listed(EntriesOf(c, Sbas), Sbas, i) <==> Bit(c.sbas, i)
    ensures forall s :: s in EntriesOf(c, Sbas) ==> s.constellation == Sbas && ShiftIsDefined(s)
  {
    var low := MaskEntries(SbasLow(c.sbas), Sbas, SBAS_INITIAL_SV_ID);
    var high := MaskEntries(SbasHigh(c.sbas), Sbas, SBAS_INITIAL2_SV_ID);
    forall b: nat ensures Bit(SbasLow(c.sbas), b) ==> b < SBAS_INITIAL_SV_LENGTH { SbasHalves(c.sbas, b); }
    forall b: nat ensures Bit(SbasHigh(c.sbas), b) ==> SBAS_INITIAL_SV_LENGTH + b < 64 {
      SbasHalves(c.sbas, b);
      NoBitFrom64(c.sbas, b + SBAS_INITIAL_SV_LENGTH);
    }
    BitOfAll(63);
    SbasHalves(c.sbas, 63);
    SbasHalves(c.sbas, i);
    if i >= SBAS_INITIAL_SV_LENGTH { SbasHalves(c.sbas, i - SBAS_INITIAL_SV_LENGTH); }
    NoBitFrom64(c.sbas, 63 + SBAS_INITIAL_SV_LENGTH);
    MaskEntriesListBits(SbasLow(c.sbas), Sbas, SBAS_INITIAL_SV_ID, 0, i);
    MaskEntriesListBits(SbasHigh(c.sbas), Sbas, SBAS_INITIAL2_SV_ID, SBAS_INITIAL_SV_LENGTH, i);
    ListedConcat(low, high, Sbas, i);
  }

  lemma ListedConcat(a: seq<SvIdSource>, b: seq<SvIdSource>, t: SvType, i: nat)
    ensures Listed(a + b, t, i) <==> Listed(a, t, i) || Listed(b, t, i)
  {
  }

  lemma FromConfigIsUnion(c: Config)
    ensures forall s :: s in FromConfig(c) <==>
              (s in EntriesOf(c, Beidou) || s in EntriesOf(c, Galileo) || s in EntriesOf(c, Glonass)
               || s in EntriesOf(c, Qzss) || s in EntriesOf(c, Sbas) || s in EntriesOf(c, Navic))
  {
  }

  lemma FromConfigListsBits(c: Config, t: SvType, i: nat)
    requires i < 64
    ensures Listed(FromConfig(c), t, i) <==> Bit(c.Get(t), i)
    ensures forall s :: s in FromConfig(c) ==> ShiftIsDefined(s)
  {
    ZeroHasNoBit(i);
    FromConfigIsUnion(c);
    EntriesListBits(c, Beidou, i);
    EntriesListBits(c, Galileo, i);
    EntriesListBits(c, Glonass, i);
    EntriesListBits(c, Qzss, i);
    EntriesListBits(c, Sbas, i);
    EntriesListBits(c, Navic, i);
  }

  // ---------------------------------------------------------------- the round trips

  /** Two configurations with the same bits below 64 are the same. */
  lemma SameConfig(c: Config, d: Config)
    requires forall t: SvType, i: nat | i < 64 :: Bit(c.Get(t), i) <==> Bit(d.Get(t), i)
    ensures c == d
  {
    Pow2Of64();
    forall t: SvType ensures c.Get(t) == d.Get(t) {
      forall i: nat ensures Bit(c.Get(t), i) <==> Bit(d.Get(t), i) {
        if i >= 64 {
          NoBitAbove(c.Get(t), 64, i);
          NoBitAbove(d.Get(t), 64, i);
        }
      }
      SameBits(c.Get(t), d.Get(t));
    }
    assert c.Get(Glonass) == d.Get(Glonass) && c.Get(Beidou) == d.Get(Beidou) && c.Get(Qzss) == d.Get(Qzss);
    assert c.Get(Galileo) == d.Get(Galileo) && c.Get(Sbas) == d.Get(Sbas) && c.Get(Navic) == d.Get(Navic);
  }

  /** Masks to list to masks is the identity on every configuration. */
  lemma MasksRoundTrip(c: Config)
    ensures forall s :: s in FromConfig(c) ==> ShiftIsDefined(s)
    ensures AddAll(CLEARED, FromConfig(c)) == c
  {
    FromConfigListsBits(c, Beidou, 0);
    var back := AddAll(CLEARED, FromConfig(c));
    forall t: SvType, i: nat | i < 64 ensures Bit(back.Get(t), i) <==> Bit(c.Get(t), i) {
      FromConfigListsBits(c, t, i);
      ListSetsNamedBits(CLEARED, FromConfig(c), t, i);
      ZeroHasNoBit(i);
    }
    SameConfig(back, c);
  }

  /** List to masks to list stands for the same satellites, whatever the order and the duplicates. */
  lemma ListRoundTrip(sources: seq<SvIdSource>, t: SvType, i: nat)
    requires forall s :: s in sources ==> ShiftIsDefined(s)
    requires i < 64
    ensures Listed(FromConfig(AddAll(CLEARED, sources)), t, i) <==> Listed(sources, t, i)
  {
    ZeroHasNoBit(i);
    ListSetsNamedBits(CLEARED, sources, t, i);
    FromConfigListsBits(AddAll(CLEARED, sources), t, i);
  }

  /** Starting from a cleared configuration, the conversion reports success exactly when some entry is valid. */
  lemma SuccessMeansSomeValidEntry(sources: seq<SvIdSource>)
    requires forall s :: s in sources ==> ShiftIsDefined(s)
    ensures AddAll(CLEARED, sources) != CLEARED <==> exists t: SvType, i: nat :: i < 64 && Listed(sources, t, i)
  {
    var c := AddAll(CLEARED, sources);
    forall t: SvType, i: nat | i < 64 ensures Bit(c.Get(t), i) <==> Listed(sources, t, i) {
      ZeroHasNoBit(i);
      ListSetsNamedBits(CLEARED, sources, t, i);
    }
    forall t: SvType, i: nat | i < 64 ensures !Bit(CLEARED.Get(t), i) { ZeroHasNoBit(i); }
    if forall t: SvType, i: nat | i < 64 :: !Listed(sources, t, i) {
      SameConfig(c, CLEARED);
    }
  }

  // ---------------------------------------------------------------- the order of the list

  /** The order in which constellations are written. */
  function Rank(t: SvType): nat {
    match t
    case Beidou => 1
    case Galileo => 2
    case Glonass => 3
    case Qzss => 4
    case Sbas => 5
    case Navic => 6
    case _ => 0
  }

  predicate Before(a: SvIdSource, b: SvIdSource) {
    Rank(a.constellation) < Rank(b.constellation) || (a.constellation == b.constellation && a.svId < b.svId)
  }

  ghost predicate Ascending(list: seq<SvIdSource>) {
    forall i, j :: 0 <= i < j < |list| ==> Before(list[i], list[j])
  }

  /** A bit's entry comes before the entries of higher bits. */
  lemma {:induction false} BitEntriesAscend(mask: nat, bit: nat, t: SvType, initialSvId: nat)
    requires t == Sbas && bit < SBAS_INITIAL_SV_LENGTH ==> initialSvId == SBAS_INITIAL_SV_ID
    ensures Ascending(BitEntries(mask, bit, t, initialSvId))
    ensures forall s :: s in BitEntries(mask, bit, t, initialSvId) ==>
              s.constellation == t && EntryId(t, initialSvId, bit) <= s.svId
  {
    if mask != 0 {
      var rest := BitEntries(mask / 2, bit + 1, t, initialSvId);
      BitEntriesAscend(mask / 2, bit + 1, t, initialSvId);
      assert EntryId(t, initialSvId, bit) < EntryId(t, initialSvId, bit + 1);
      forall k | 0 <= k < |rest| ensures Before(SvIdSource(t, EntryId(t, initialSvId, bit)), rest[k]) {
        assert rest[k] in rest;
      }
    }
  }

  lemma AscendingConcat(a: seq<SvIdSource>, b: seq<SvIdSource>)
    requires Ascending(a) && Ascending(b)
    requires forall x, y :: x in a && y in b ==> Before(x, y)
    ensures Ascending(a + b)
  {
    forall i, j | 0 <= i < j < |a + b| ensures Before((a + b)[i], (a + b)[j]) {
      if i < |a| <= j { assert (a + b)[i] in a && (a + b)[j] in b; }
    }
  }

  /** The entries of one constellation ascend; the two SBAS ranges do not overlap. */
  lemma EntriesAscend(c: Config, t: SvType)
    ensures Ascending(EntriesOf(c, t)) && forall s :: s in EntriesOf(c, t) ==> s.constellation == t
  {
    if HasMask(t) && c.Get(t) != 0 {
      if t == Sbas {
        SbasEntriesAscend(c);
      } else {
        BitEntriesAscend(c.Get(t), 0, t, InitialSvId(t));
      }
    }
  }

  lemma SbasEntriesAscend(c: Config)
    ensures var low := MaskEntries(SbasLow(c.sbas), Sbas, SBAS_INITIAL_SV_ID);
            var high := MaskEntries(SbasHigh(c.sbas), Sbas, SBAS_INITIAL2_SV_ID);
            Ascending(low + high) && forall s :: s in low + high ==> s.constellation == Sbas
  {
    var low := MaskEntries(SbasLow(c.sbas), Sbas, SBAS_INITIAL_SV_ID);
    var high := MaskEntries(SbasHigh(c.sbas), Sbas, SBAS_INITIAL2_SV_ID);
    HalvesAreNotFull(c.sbas);
    BitEntriesAscend(SbasLow(c.sbas), 0, Sbas, SBAS_INITIAL_SV_ID);
    forall b: nat { HighBits(c.sbas, b); }
    HighEntriesAscend(SbasHigh(c.sbas), 0);
    forall s | s in low ensures s.svId < SBAS_INITIAL2_SV_ID {
      var b := EntryHasBit(SbasLow(c.sbas), 0, Sbas, SBAS_INITIAL_SV_ID, s);
      SbasHalves(c.sbas, b);
    }
    AscendingConcat(low, high);
  }

  lemma HalvesAreNotFull(mask: uint64)
    ensures SbasLow(mask) != ALL_BITS && SbasHigh(mask) != ALL_BITS
  {
    SbasHalves(mask, 63);
    BitOfAll(63);
    NoBitFrom64(mask, 63 + SBAS_INITIAL_SV_LENGTH);
  }

  /** Written from the second initial id on: the bits are few enough to stay in its range. */
  lemma {:induction false} HighEntriesAscend(mask: nat, bit: nat)
    requires forall b: nat :: Bit(mask, b) ==> bit + b < SBAS_INITIAL_SV_LENGTH
    ensures Ascending(BitEntries(mask, bit, Sbas, SBAS_INITIAL2_SV_ID))
    ensures forall s :: s in BitEntries(mask, bit, Sbas, SBAS_INITIAL2_SV_ID) ==>
              s.constellation == Sbas && SBAS_INITIAL2_SV_ID + bit <= s.svId
  {
    if mask != 0 {
      var rest := BitEntries(mask / 2, bit + 1, Sbas, SBAS_INITIAL2_SV_ID);
      forall b: nat | Bit(mask / 2, b) ensures bit + 1 + b < SBAS_INITIAL_SV_LENGTH { assert Bit(mask, b + 1); }
      HighEntriesAscend(mask / 2, bit + 1);
      if mask % 2 == 1 {
        assert Bit(mask, 0);
        AscendingConcat([SvIdSource(Sbas, SBAS_INITIAL2_SV_ID + bit)], rest);
      } else {
        assert [] + rest == rest;
      }
    }
  }

  lemma HighBits(mask: uint64, b: nat)
    ensures Bit(SbasHigh(mask), b) ==> b < 64 - SBAS_INITIAL_SV_LENGTH
  {
    SbasHalves(mask, b);
    NoBitFrom64(mask, b + SBAS_INITIAL_SV_LENGTH);
  }

  /** The list of any configuration is in the order of constellations and ids, each id at most once. */
  lemma ListAscends(c: Config)
    ensures Ascending(FromConfig(c))
  {
    EntriesAscend(c, Beidou);
    EntriesAscend(c, Galileo);
    EntriesAscend(c, Glonass);
    EntriesAscend(c, Qzss);
    EntriesAscend(c, Sbas);
    EntriesAscend(c, Navic);
    var b2 := EntriesOf(c, Beidou) + EntriesOf(c, Galileo);
    var b3 := b2 + EntriesOf(c, Glonass);
    var b4 := b3 + EntriesOf(c, Qzss);
    var b5 := b4 + EntriesOf(c, Sbas);
    AscendingConcat(EntriesOf(c, Beidou), EntriesOf(c, Galileo));
    AscendingConcat(b2, EntriesOf(c, Glonass));
    AscendingConcat(b3, EntriesOf(c, Qzss));
    AscendingConcat(b4, EntriesOf(c, Sbas));
    AscendingConcat(b5, EntriesOf(c, Navic));
  }

  // ---------------------------------------------------------------- the ids

  /** The id that each bit of each mask stands for. */
  lemma IdTable(i: nat)
    ensures SvIdOf(Glonass, i) == 65 + i && SvIdOf(Qzss, i) == 193 + i && SvIdOf(Beidou, i) == 201 + i
    ensures SvIdOf(Galileo, i) == 301 + i && SvIdOf(Navic, i) == 401 + i
    ensures SvIdOf(Sbas, i) == if i < 39 then 120 + i else 183 + (i - 39)
  {
  }

  /** A mask of all ones is written as the id 0 alone, and id 0 stands for nothing else; SBAS ids are written out. */
  lemma ZeroStandsForAll(c: Config, t: SvType)
    requires HasMask(t)
    ensures t != Sbas && c.Get(t) == ALL_BITS ==> EntriesOf(c, t) == [SvIdSource(t, 0)]
    ensures t == Sbas || c.Get(t) != ALL_BITS ==> forall s :: s in EntriesOf(c, t) ==> s.svId != 0
  {
    if c.Get(t) != 0 {
      if t == Sbas {
        HalvesAreNotFull(c.sbas);
        BitEntriesAscend(SbasLow(c.sbas), 0, Sbas, SBAS_INITIAL_SV_ID);
        forall b: nat { HighBits(c.sbas, b); }
        HighEntriesAscend(SbasHigh(c.sbas), 0);
      } else if c.Get(t) != ALL_BITS {
        BitEntriesAscend(c.Get(t), 0, t, InitialSvId(t));
      }
    }
  }
}
