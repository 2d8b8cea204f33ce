/**
 * The string-descriptor decoding of getDescGeneric(). A descriptor arrives in
 * a 64-byte table: byte 0 is the declared length L in bytes, byte 1 the
 * descriptor type, and from byte 2 on UTF-16LE code units. A manufacturer or
 * product string longer than one table continues in a second table fetched
 * with the command code plus two: the code unit straddling the boundary has
 * its low byte at index 62 of the first table and its high byte at index 0 of
 * the second, whose remaining units start at index 1.
 *
 * Read back to back, the first table's bytes 0..62 followed by the whole
 * second table form one logical descriptor D, and the decoder's three parts
 * (first loop, straddling unit, second loop) together decode D's pairs
 * (2, 3), (4, 5), ... below L: `SplitDecodesLogical` proves this.
 */
module Descriptor {

  import opened RelayProtocol

  /** An unsigned char of a descriptor table; decoding does only arithmetic on it. */
  newtype byte = x: int | 0 <= x < 0x100

  /** The UTF-16 code unit with low byte `lo` and high byte `hi`. */
  function Unit(lo: byte, hi: byte): u16
  {
    (hi as int * 256 + lo as int) as u16
  }

  /** A unit is null exactly when both its bytes are. */
  lemma UnitNull(lo: byte, hi: byte)
    ensures Unit(lo, hi) == 0 <==> lo == 0 && hi == 0
  {
  }

  /**
   * The code units of the byte pairs (i, i + 1), (i + 2, i + 3), ... with i
   * below `end`, leaving out every pair whose two bytes are both zero.
   */
  function PairUnits(buf: seq<byte>, i: nat, end: nat): seq<u16>
    requires end < |buf|
    decreases end - i
  {
    if i >= end then []
    else (if buf[i] != 0 || buf[i + 1] != 0 then [Unit(buf[i], buf[i + 1])] else []) + PairUnits(buf, i + 2, end)
  }

  /** The loop of getDescGeneric(): walks the pairs from `from` up to `end`, keeping non-null units. */
  method DecodePairs(buf: seq<byte>, from: nat, end: nat) returns (units: seq<u16>)
    requires end < |buf|
    ensures units == PairUnits(buf, from, end)
  {
    units := [];
    var i := from;
    while i < end
      invariant from <= i
      invariant units + PairUnits(buf, i, end) == PairUnits(buf, from, end)
      decreases end - i
    {
      if buf[i] != 0 || buf[i + 1] != 0 {
        units := units + [Unit(buf[i], buf[i + 1])];
      }
      assert PairUnits(buf, i, end) ==
             (if buf[i] != 0 || buf[i + 1] != 0 then [Unit(buf[i], buf[i + 1])] else []) + PairUnits(buf, i + 2, end);
      i := i + 2;
    }
    assert units + [] == units;
  }

  /** Every unit kept is non-null. */
  lemma {:induction false} PairUnitsNonNull(buf: seq<byte>, i: nat, end: nat)
    requires end < |buf|
    ensures forall k :: 0 <= k < |PairUnits(buf, i, end)| ==> PairUnits(buf, i, end)[k] != 0
    decreases end - i
  {
    if i < end {
      PairUnitsNonNull(buf, i + 2, end);
    }
  }

  /** At most one unit per pair. */
  lemma {:induction false} PairUnitsLength(buf: seq<byte>, i: nat, end: nat)
    requires end < |buf|
    ensures i <= end ==> 2 * |PairUnits(buf, i, end)| <= end - i + 1
    decreases end - i
  {
    if i < end {
      PairUnitsLength(buf, i + 2, end);
      var head := if buf[i] != 0 || buf[i + 1] != 0 then [Unit(buf[i], buf[i + 1])] else [];
      assert PairUnits(buf, i, end) == head + PairUnits(buf, i + 2, end);
    }
  }

  /**
   * Decoding only reads bytes i..end: two buffers that agree there, one of
   * them shifted by `s`, decode to the same units.
   */
  lemma {:induction false} PairUnitsShift(a: seq<byte>, b: seq<byte>, s: nat, i: nat, end: nat)
    requires end < |b| && end + s < |a|
    requires forall k :: i <= k <= end ==> Agree(a, b, s, k)
    ensures PairUnits(a, i + s, end + s) == PairUnits(b, i, end)
    decreases end - i
  {
    if i < end {
      assert Agree(a, b, s, i) && Agree(a, b, s, i + 1);
      PairUnitsShift(a, b, s, i + 2, end);
      var head := if b[i] != 0 || b[i + 1] != 0 then [Unit(b[i], b[i + 1])] else [];
      assert PairUnits(b, i, end) == head + PairUnits(b, i + 2, end);
      assert PairUnits(a, i + s, end + s) == head + PairUnits(a, (i + s) + 2, end + s);
    }
  }

  /** Byte k of `b` is byte k + s of `a`. */
  predicate Agree(a: seq<byte>, b: seq<byte>, s: nat, k: nat)
  {
    k + s < |a| && k < |b| && a[k + s] == b[k]
  }

  /** Decoding from i to end splits at any even offset m in between. */
  lemma {:induction false} PairUnitsSplit(buf: seq<byte>, i: nat, m: nat, end: nat)
    requires i <= m <= end < |buf| && (m - i) % 2 == 0
    ensures PairUnits(buf, i, end) == PairUnits(buf, i, m) + PairUnits(buf, m, end)
    decreases m - i
  {
    if i == m {
      assert PairUnits(buf, i, m) == [];
    } else {
      PairUnitsSplit(buf, i + 2, m, end);
      var head := if buf[i] != 0 || buf[i + 1] != 0 then [Unit(buf[i], buf[i + 1])] else [];
      assert PairUnits(buf, i, m) == head + PairUnits(buf, i + 2, m);
      assert PairUnits(buf, i, end) == head + PairUnits(buf, i + 2, end);
      ConcatAssoc(head, PairUnits(buf, i + 2, m), PairUnits(buf, m, end));
    }
  }

  /** The commands whose string may continue into a second table. */
  predicate TwoTableCommand(command: bv8)
  {
    command == GET_MANUFACTURING_STRING_1 || command == GET_PRODUCT_STRING_1
  }

  /** Whether getDescGeneric() fetches the continuation table: a two-table command whose L exceeds 62. */
  predicate Continues(command: bv8, length: nat)
  {
    TwoTableCommand(command) && length > DESC_MAXIDX
  }

  /** The logical descriptor: the first table up to index 62, then the whole continuation table. */
  function Logical(table1: seq<byte>, table2: seq<byte>): (d: seq<byte>)
    requires |table1| == DESC_TBLSIZE as nat && |table2| == DESC_TBLSIZE as nat
    ensures |d| == 127
    ensures forall k :: 0 <= k < DESC_IDXINCR ==> d[k] == table1[k]
    ensures forall k :: 0 <= k < |table2| ==> d[k + DESC_IDXINCR] == table2[k]
  {
    table1[..DESC_IDXINCR] + table2
  }

  /**
   * What getDescGeneric() can decode: L is at most 126 whenever the
   * continuation table is read (beyond that its second loop reads past the
   * 64-byte buffer).
   */
  predicate DecodableTables(command: bv8, table1: seq<byte>, table2: seq<byte>)
  {
    |table1| == DESC_TBLSIZE as nat && |table2| == DESC_TBLSIZE as nat &&
    (Continues(command, table1[0] as nat) ==> table1[0] as nat <= 2 * DESC_IDXINCR)
  }

  /**
   * The string getDescGeneric() returns, as a flat decoding: the pairs of the
   * logical descriptor below L when the string continues, else the pairs of
   * the first table below min(L, 62).
   */
  function DescriptorValue(command: bv8, table1: seq<byte>, table2: seq<byte>): seq<u16>
    requires DecodableTables(command, table1, table2)
  {
    var length := table1[0] as nat;
    if Continues(command, length) then PairUnits(Logical(table1, table2), 2, length)
    else PairUnits(table1, 2, if length > DESC_MAXIDX then DESC_MAXIDX else length)
  }

  /** The unit with bytes `lo` and `hi`, or nothing when it is null. */
  function NonNullUnit(lo: byte, hi: byte): (r: seq<u16>)
    ensures |r| <= 1 && (r == [] <==> lo == 0 && hi == 0)
  {
    var u := Unit(lo, hi);
    if u != 0 then [u] else []
  }

  /** The unit straddling the two tables, or nothing when it is null. */
  function MidUnit(table1: seq<byte>, table2: seq<byte>): seq<u16>
    requires |table1| == DESC_TBLSIZE as nat && |table2| == DESC_TBLSIZE as nat
  {
    NonNullUnit(table1[DESC_MAXIDX], table2[0])
  }

  /** The logical descriptor's pairs below 62 are the first table's. */
  lemma FirstTablePart(table1: seq<byte>, table2: seq<byte>)
    requires |table1| == DESC_TBLSIZE as nat && |table2| == DESC_TBLSIZE as nat
    ensures PairUnits(Logical(table1, table2), 2, DESC_MAXIDX) == PairUnits(table1, 2, DESC_MAXIDX)
  {
    PairUnitsShift(Logical(table1, table2), table1, 0, 2, DESC_MAXIDX);
  }

  /** The logical descriptor's pair at 62 is the straddling unit. */
  lemma StraddlingPart(table1: seq<byte>, table2: seq<byte>, length: nat)
    requires |table1| == DESC_TBLSIZE as nat && |table2| == DESC_TBLSIZE as nat
    requires DESC_MAXIDX < length <= 2 * DESC_IDXINCR
    ensures PairUnits(Logical(table1, table2), DESC_MAXIDX, length) ==
            MidUnit(table1, table2) + PairUnits(Logical(table1, table2), DESC_MAXIDX + 2, length)
  {
    var d := Logical(table1, table2);
    assert d[62] == table1[62] && d[63] == table2[0];
    UnitNull(d[62], d[63]);
  }

  /** The logical descriptor's pairs from 64 are the continuation table's pairs from 1. */
  lemma ContinuationPart(table1: seq<byte>, table2: seq<byte>, length: nat)
    requires |table1| == DESC_TBLSIZE as nat && |table2| == DESC_TBLSIZE as nat
    requires DESC_MAXIDX < length <= 2 * DESC_IDXINCR
    ensures PairUnits(Logical(table1, table2), DESC_MAXIDX + 2, length) == PairUnits(table2, 1, length - DESC_IDXINCR)
  {
    PairUnitsShift(Logical(table1, table2), table2, DESC_IDXINCR, 1, length - DESC_IDXINCR);
  }

  /**
   * The code's three parts decode the logical descriptor: the first table's
   * pairs below 62, the straddling unit, and the continuation table's pairs
   * from index 1 below L - 63 are exactly the pairs of D below L.
   */
  lemma SplitDecodesLogical(table1: seq<byte>, table2: seq<byte>, length: nat)
    requires |table1| == DESC_TBLSIZE as nat && |table2| == DESC_TBLSIZE as nat
    requires DESC_MAXIDX < length <= 2 * DESC_IDXINCR
    ensures PairUnits(table1, 2, DESC_MAXIDX) + MidUnit(table1, table2) + PairUnits(table2, 1, length - DESC_IDXINCR)
            == PairUnits(Logical(table1, table2), 2, length)
  {
    PairUnitsSplit(Logical(table1, table2), 2, DESC_MAXIDX, length);
    FirstTablePart(table1, table2);
    StraddlingPart(table1, table2, length);
    ContinuationPart(table1, table2, length);
    ConcatAssoc(PairUnits(table1, 2, DESC_MAXIDX), MidUnit(table1, table2), PairUnits(table2, 1, length - DESC_IDXINCR));
  }

  lemma ConcatAssoc(a: seq<u16>, b: seq<u16>, c: seq<u16>)
    ensures a + b + c == a + (b + c)
  {
  }

  /** Appending the straddling unit when it is not null appends NonNullUnit. */
  lemma NonNullUnitAppend(head: seq<u16>, lo: byte, hi: byte, extended: seq<u16>)
    requires extended == if Unit(lo, hi) != 0 then head + [Unit(lo, hi)] else head
    ensures extended == head + NonNullUnit(lo, hi)
  {
    if Unit(lo, hi) == 0 {
      assert head + [] == head;
    }
  }

  /**
   * The value of a continued string, built as the code builds it: the first
   * table's pairs below 62, the straddling unit appended when it is not null,
   * then the continuation table's pairs from index 1 below L - 63.
   */
  lemma ContinuedValue(command: bv8, table1: seq<byte>, table2: seq<byte>, middle: seq<u16>, rest: seq<u16>)
    requires DecodableTables(command, table1, table2) && Continues(command, table1[0] as nat)
    requires var head := PairUnits(table1, 2, DESC_MAXIDX);
             var mid := Unit(table1[DESC_MAXIDX], table2[0]);
             middle == if mid != 0 then head + [mid] else head
    requires rest == PairUnits(table2, 1, table1[0] as nat - DESC_IDXINCR)
    ensures DescriptorValue(command, table1, table2) == middle + rest
  {
    SplitDecodesLogical(table1, table2, table1[0] as nat);
    NonNullUnitAppend(PairUnits(table1, 2, DESC_MAXIDX), table1[DESC_MAXIDX], table2[0], middle);
  }

  /** A decoded string is never longer than the descriptor limits allow, and holds no null unit. */
  lemma DescriptorValueBounds(command: bv8, table1: seq<byte>, table2: seq<byte>)
    requires DecodableTables(command, table1, table2)
    ensures |DescriptorValue(command, table1, table2)| <= DESCMXL_MANUFACTURER
    ensures !TwoTableCommand(command) ==> |DescriptorValue(command, table1, table2)| <= DESCMXL_SERIAL
    ensures forall k :: 0 <= k < |DescriptorValue(command, table1, table2)| ==> DescriptorValue(command, table1, table2)[k] != 0
  {
    var length := table1[0] as nat;
    if Continues(command, length) {
      PairUnitsLength(Logical(table1, table2), 2, length);
      PairUnitsNonNull(Logical(table1, table2), 2, length);
    } else {
      var end := if length > DESC_MAXIDX then DESC_MAXIDX else length;
      PairUnitsLength(table1, 2, end);
      PairUnitsNonNull(table1, 2, end);
    }
  }

  /** The low byte of a code unit. */
  function Low(u: u16): byte
  {
    (u as int % 256) as byte
  }

  /** The high byte of a code unit. */
  function High(u: u16): byte
  {
    (u as int / 256) as byte
  }

  /** Splitting a unit into its bytes and joining them again gives the unit back. */
  lemma UnitBytes(u: u16)
    ensures Unit(Low(u), High(u)) == u
  {
    var lo := u as int % 256;
    var hi := u as int / 256;
    assert Low(u) as int == lo;
    assert High(u) as int == hi;
    assert hi * 256 + lo == u as int;
  }

  /** The UTF-16LE encoding of a string of code units. */
  function Utf16Le(units: seq<u16>): (bytes: seq<byte>)
    ensures |bytes| == 2 * |units|
  {
    if units == [] then [] else [Low(units[0]), High(units[0])] + Utf16Le(units[1..])
  }

  /** Decoding the UTF-16LE encoding of non-null units gives them back, wherever they sit in the buffer. */
  lemma {:induction false} DecodeUtf16Le(buf: seq<byte>, from: nat, units: seq<u16>)
    requires from + 2 * |units| < |buf|
    requires buf[from..from + 2 * |units|] == Utf16Le(units)
    requires forall k :: 0 <= k < |units| ==> units[k] != 0
    ensures PairUnits(buf, from, from + 2 * |units|) == units
    decreases |units|
  {
    if units != [] {
      var u := units[0];
      var rest := Utf16Le(units[1..]);
      assert Utf16Le(units) == [Low(u), High(u)] + rest;
      assert buf[from] == Low(u) && buf[from + 1] == High(u);
      UnitBytes(u);
      assert buf[from + 2..from + 2 + 2 * |units[1..]|] == rest by {
        assert buf[from + 2..from + 2 + 2 * |units[1..]|] == buf[from..from + 2 * |units|][2..];
      }
      DecodeUtf16Le(buf, from + 2, units[1..]);
      assert PairUnits(buf, from, from + 2 * |units|) == [u] + units[1..];
    }
  }

  /**
   * The USB string-descriptor layout of a string: length byte L = 2 + 2n,
   * descriptor type 3, then the UTF-16LE units.
   */
  function DescriptorBytes(units: seq<u16>): (bytes: seq<byte>)
    requires |units| <= 2 * DESC_MAXIDX
    ensures |bytes| == 2 + 2 * |units|
    ensures bytes[0] as nat == 2 + 2 * |units|
  {
    [(2 + 2 * |units|) as byte, 3] + Utf16Le(units)
  }

  /**
   * Reading back a laid-out string: when the logical descriptor starts with
   * the layout of a non-null string that fits (up to 62 units for the
   * manufacturer and product strings, 30 otherwise), getDescGeneric() yields
   * that string.
   */
  lemma DescriptorRoundTrip(command: bv8, units: seq<u16>, table1: seq<byte>, table2: seq<byte>)
    requires |table1| == DESC_TBLSIZE as nat && |table2| == DESC_TBLSIZE as nat
    requires |units| <= if TwoTableCommand(command) then DESCMXL_PRODUCT else DESCMXL_SERIAL
    requires forall k :: 0 <= k < |units| ==> units[k] != 0
    requires Logical(table1, table2)[..2 + 2 * |units|] == DescriptorBytes(units)
    ensures DecodableTables(command, table1, table2)
    ensures DescriptorValue(command, table1, table2) == units
  {
    var d := Logical(table1, table2);
    var length := 2 + 2 * |units|;
    assert table1[0] == d[0] == DescriptorBytes(units)[0];
    assert table1[0] as nat == length;
    assert d[2..length] == Utf16Le(units) by {
      assert d[2..length] == d[..length][2..];
    }
    DecodeUtf16Le(d, 2, units);
    if !Continues(command, length) {
      PairUnitsShift(d, table1, 0, 2, length);
    }
  }
}
