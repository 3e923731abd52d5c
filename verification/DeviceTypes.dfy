// Access widths and bus errors of crates/hyper-devices/src/lib.rs.
module DeviceTypes {
  import opened BitStrings
  import opened Bytes
  import opened Words

  datatype Width = Byte1 | Word2 | Dword4 | Qword8 {
    function Size(): (n: nat)
      ensures n <= 8
    {
      match this
      case Byte1 => 1
      case Word2 => 2
      case Dword4 => 4
      case Qword8 => 8
    }

    function Mask(): (m: U64)
      ensures m + 1 == Pow2(8 * Size())
    {
      Pow2Of64();
      Pow2Of32();
      Pow2Of8();
      Pow2Sum(8, 8);
      match this
      case Byte1 => 0xFF
      case Word2 => 0xFFFF
      case Dword4 => 0xFFFF_FFFF
      case Qword8 => U64_MAX
    }
  }

  datatype DevError =
    | UnmappedAddress(addr: nat)
    | UnknownPort(port: nat)
    | UnknownDevice(index: nat)
    | OffsetOutOfRange(offset: nat)
    | ValueTooWide(value: nat, width: Width)

  /** `v & width.mask()` keeps the low bytes. */
  lemma MaskKeepsLowBytes(v: U64, width: Width)
    ensures And(v, width.Mask()) == v % Pow2(8 * width.Size())
  {
    Pow2Of64();
    AndMask(v, width.Mask(), 8 * width.Size(), 64);
  }

  /** `v & !width.mask()` is zero exactly for values that fit. */
  lemma MaskFits(v: U64, width: Width)
    ensures And(v, Not(width.Mask())) == 0 <==> v <= width.Mask()
  {
    var p := Pow2(8 * width.Size());
    Pow2Of64();
    AndComplement(v, width.Mask(), 64);
    MaskKeepsLowBytes(v, width);
    RemainderOfSmall(v, p);
  }

  lemma RemainderOfSmall(v: nat, p: nat)
    requires p > 0
    ensures v % p == v <==> v < p
  {
    if v < p {
      DivisionUnique(v, p, 0, v);
    }
  }
}
