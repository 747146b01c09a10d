/** Bit interleaving: the Morton code behind the 64-bit quad keys, and the byte-wise lookup table that computes it. */
module Morton {
  import opened BitOps

  /** The bits of r and c alternated, c_0 lowest: take the lowest bit of c, then let the two change places. */
  function Interleave(r: nat, c: nat): nat
    decreases 2 * (r + c) + (if c == 0 then 1 else 0)
  {
    if r == 0 && c == 0 then 0 else 2 * Interleave(c / 2, r) + c % 2
  }

  /** Row h of MortonTable256: its entries 16h .. 16h + 15. */
  function MortonRow(h: nat): (row: seq<nat>)
    requires h < 16
    ensures |row| == 16
  {
    match h
    case 0 => [0x0000, 0x0001, 0x0004, 0x0005, 0x0010, 0x0011, 0x0014, 0x0015, 0x0040, 0x0041, 0x0044, 0x0045, 0x0050, 0x0051, 0x0054, 0x0055]
    case 1 => [0x0100, 0x0101, 0x0104, 0x0105, 0x0110, 0x0111, 0x0114, 0x0115, 0x0140, 0x0141, 0x0144, 0x0145, 0x0150, 0x0151, 0x0154, 0x0155]
    case 2 => [0x0400, 0x0401, 0x0404, 0x0405, 0x0410, 0x0411, 0x0414, 0x0415, 0x0440, 0x0441, 0x0444, 0x0445, 0x0450, 0x0451, 0x0454, 0x0455]
    case 3 => [0x0500, 0x0501, 0x0504, 0x0505, 0x0510, 0x0511, 0x0514, 0x0515, 0x0540, 0x0541, 0x0544, 0x0545, 0x0550, 0x0551, 0x0554, 0x0555]
    case 4 => [0x1000, 0x1001, 0x1004, 0x1005, 0x1010, 0x1011, 0x1014, 0x1015, 0x1040, 0x1041, 0x1044, 0x1045, 0x1050, 0x1051, 0x1054, 0x1055]
    case 5 => [0x1100, 0x1101, 0x1104, 0x1105, 0x1110, 0x1111, 0x1114, 0x1115, 0x1140, 0x1141, 0x1144, 0x1145, 0x1150, 0x1151, 0x1154, 0x1155]
    case 6 => [0x1400, 0x1401, 0x1404, 0x1405, 0x1410, 0x1411, 0x1414, 0x1415, 0x1440, 0x1441, 0x1444, 0x1445, 0x1450, 0x1451, 0x1454, 0x1455]
    case 7 => [0x1500, 0x1501, 0x1504, 0x1505, 0x1510, 0x1511, 0x1514, 0x1515, 0x1540, 0x1541, 0x1544, 0x1545, 0x1550, 0x1551, 0x1554, 0x1555]
    case 8 => [0x4000, 0x4001, 0x4004, 0x4005, 0x4010, 0x4011, 0x4014, 0x4015, 0x4040, 0x4041, 0x4044, 0x4045, 0x4050, 0x4051, 0x4054, 0x4055]
    case 9 => [0x4100, 0x4101, 0x4104, 0x4105, 0x4110, 0x4111, 0x4114, 0x4115, 0x4140, 0x4141, 0x4144, 0x4145, 0x4150, 0x4151, 0x4154, 0x4155]
    case 10 => [0x4400, 0x4401, 0x4404, 0x4405, 0x4410, 0x4411, 0x4414, 0x4415, 0x4440, 0x4441, 0x4444, 0x4445, 0x4450, 0x4451, 0x4454, 0x4455]
    case 11 => [0x4500, 0x4501, 0x4504, 0x4505, 0x4510, 0x4511, 0x4514, 0x4515, 0x4540, 0x4541, 0x4544, 0x4545, 0x4550, 0x4551, 0x4554, 0x4555]
    case 12 => [0x5000, 0x5001, 0x5004, 0x5005, 0x5010, 0x5011, 0x5014, 0x5015, 0x5040, 0x5041, 0x5044, 0x5045, 0x5050, 0x5051, 0x5054, 0x5055]
    case 13 => [0x5100, 0x5101, 0x5104, 0x5105, 0x5110, 0x5111, 0x5114, 0x5115, 0x5140, 0x5141, 0x5144, 0x5145, 0x5150, 0x5151, 0x5154, 0x5155]
    case 14 => [0x5400, 0x5401, 0x5404, 0x5405, 0x5410, 0x5411, 0x5414, 0x5415, 0x5440, 0x5441, 0x5444, 0x5445, 0x5450, 0x5451, 0x5454, 0x5455]
    case _ => [0x5500, 0x5501, 0x5504, 0x5505, 0x5510, 0x5511, 0x5514, 0x5515, 0x5540, 0x5541, 0x5544, 0x5545, 0x5550, 0x5551, 0x5554, 0x5555]
  }

  /** Entry b holds the bits of the byte b spread to the even positions. */
  function MortonTable256(b: nat): nat
    requires b < 256
  {
    MortonRow(b / 16)[b % 16]
  }

  lemma InterleaveStep(r: nat, c: nat)
    ensures Interleave(r, c) == 4 * Interleave(r / 2, c / 2) + 2 * (r % 2) + c % 2
  {
    assert Interleave(r, c) == 2 * Interleave(c / 2, r) + c % 2;
    assert Interleave(c / 2, r) == 2 * Interleave(r / 2, c / 2) + r % 2;
  }

  lemma InterleaveBits(r: nat, c: nat, hr: nat, br: nat, hc: nat, bc: nat)
    requires r == 2 * hr + br && c == 2 * hc + bc && br < 2 && bc < 2
    ensures Interleave(r, c) == 4 * Interleave(hr, hc) + 2 * br + bc
  {
    InterleaveStep(r, c);
    assert r / 2 == hr && c / 2 == hc;
  }

  /** Interleaving works separately on the bits above and below any position. */
  lemma {:induction false} InterleaveSplit(r: nat, c: nat, r': nat, c': nat, n: nat)
    requires r' < Pow2(n) && c' < Pow2(n)
    ensures Interleave(Shl(r, n) + r', Shl(c, n) + c') == Shl(Interleave(r, c), 2 * n) + Interleave(r', c')
    decreases n
  {
    if n > 0 {
      var hr, br, hc, bc := r' / 2, r' % 2, c' / 2, c' % 2;
      InterleaveSplit(r, c, hr, hc, n - 1);
      InterleaveBits(Shl(r, n) + r', Shl(c, n) + c', Shl(r, n - 1) + hr, br, Shl(c, n - 1) + hc, bc);
      InterleaveBits(r', c', hr, br, hc, bc);
      ShlTwo(Interleave(r, c), 2 * (n - 1));
    }
  }

  lemma {:induction false} InterleaveBound(r: nat, c: nat, n: nat)
    requires r < Pow2(n) && c < Pow2(n)
    ensures Interleave(r, c) < Pow2(2 * n)
    decreases n
  {
    if n > 0 {
      InterleaveBound(r / 2, c / 2, n - 1);
      InterleaveBits(r, c, r / 2, r % 2, c / 2, c % 2);
      assert Pow2(2 * n) == 2 * Pow2(2 * n - 1);
    }
  }

  /** "Or" works on the two interleaved operands separately. */
  lemma {:induction false} InterleaveOr(a: nat, b: nat, c: nat, d: nat)
    ensures Or(Interleave(a, b), Interleave(c, d)) == Interleave(Or(a, c), Or(b, d))
    decreases 2 * (a + b + c + d) + (if b == 0 && d == 0 then 1 else 0)
  {
    if a == 0 && b == 0 && c == 0 && d == 0 {
    } else {
      InterleaveOr(b / 2, a, d / 2, c);
      assert Interleave(a, b) / 2 == Interleave(b / 2, a) && Interleave(a, b) % 2 == b % 2;
      assert Interleave(c, d) / 2 == Interleave(d / 2, c) && Interleave(c, d) % 2 == d % 2;
      OrStep(Interleave(a, b), Interleave(c, d));
      OrStep(b, d);
      OrStep(a, c);
    }
  }

  lemma OrStep(a: nat, b: nat)
    ensures Or(a, b) == 2 * Or(a / 2, b / 2) + (if a % 2 == 1 || b % 2 == 1 then 1 else 0)
  {
  }

  /** Moving a bit block: a row block at position n lands at 2n + 1, a column block at 2n. */
  lemma InterleaveBlocks(x: nat, n: nat)
    ensures Shl(Interleave(0, x), 2 * n) == Interleave(0, Shl(x, n))
    ensures Shl(Interleave(0, x), 2 * n + 1) == Interleave(Shl(x, n), 0)
  {
    ShlOne(n);
    InterleaveSplit(0, x, 0, 0, n);
    assert Interleave(Shl(x, n), 0) == 2 * Interleave(0, Shl(x, n));
  }

  /** The table agrees with bit-by-bit interleaving on every byte. */
  lemma TableIsInterleave(b: nat)
    requires b < 256
    ensures MortonTable256(b) == Interleave(0, b)
  {
    var h, l := b / 16, b % 16;
    TableRow(h, l);
    NibbleIsInterleave(h);
    NibbleIsInterleave(l);
    InterleaveNibbles(h, l);
  }

  /** A column value cut at bit n. */
  lemma InterleaveDigits(h: nat, l: nat, n: nat)
    requires l < Pow2(n)
    ensures Interleave(0, h * Pow2(n) + l) == Interleave(0, h) * Pow2(2 * n) + Interleave(0, l)
  {
    InterleaveSplit(0, h, 0, l, n);
    ShlOne(n);
    ShlIsTimes(h, n);
    ShlIsTimes(Interleave(0, h), 2 * n);
  }

  lemma InterleaveNibbles(h: nat, l: nat)
    requires l < 16
    ensures Interleave(0, 16 * h + l) == 256 * Interleave(0, h) + Interleave(0, l)
  {
    assert Pow2(4) == 16 && Pow2(8) == 256;
    InterleaveDigits(h, l, 4);
  }

  lemma InterleavePairs(h: nat, l: nat)
    requires l < 4
    ensures Interleave(0, 4 * h + l) == 16 * Interleave(0, h) + Interleave(0, l)
  {
    assert Pow2(2) == 4 && Pow2(4) == 16;
    InterleaveDigits(h, l, 2);
  }

  /** The four bits of a nibble, spread to the even positions. */
  function Nibble(l: nat): nat
    requires l < 16
  {
    match l
    case 0 => 0
    case 1 => 1
    case 2 => 4
    case 3 => 5
    case 4 => 16
    case 5 => 17
    case 6 => 20
    case 7 => 21
    case 8 => 64
    case 9 => 65
    case 10 => 68
    case 11 => 69
    case 12 => 80
    case 13 => 81
    case 14 => 84
    case _ => 85
  }

  lemma NibbleIsInterleave(l: nat)
    requires l < 16
    ensures Nibble(l) == Interleave(0, l)
  {
    var h, m := l / 4, l % 4;
    InterleavePairs(h, m);
    TwoBits(h);
    TwoBits(m);
    NibbleBits(h, m);
  }

  /** The two bits of a base-4 digit, spread. */
  function Spread2(l: nat): nat {
    if l < 2 then l else l + 2
  }

  lemma NibbleBits(h: nat, m: nat)
    requires h < 4 && m < 4
    ensures Nibble(4 * h + m) == 16 * Spread2(h) + Spread2(m)
  {
  }

  lemma TwoBits(l: nat)
    requires l < 4
    ensures Interleave(0, l) == Spread2(l)
  {
    InterleaveStep(0, l);
    InterleaveStep(0, l / 2);
  }

  lemma TableRow(h: nat, l: nat)
    requires h < 16 && l < 16
    ensures MortonRow(h)[l] == 256 * Nibble(h) + Nibble(l)
  {
    var row, n := RowEntries(h);
    SelectEntry(row, n, l);
  }

  lemma SelectEntry(row: seq<nat>, n: nat, l: nat)
    requires l < 16
    requires row == [n, n + 1, n + 4, n + 5, n + 16, n + 17, n + 20, n + 21,
                     n + 64, n + 65, n + 68, n + 69, n + 80, n + 81, n + 84, n + 85]
    ensures row[l] == n + Nibble(l)
  {
    assert Nibble(l) == row[l] - n;
  }

  lemma RowEntries(h: nat) returns (row: seq<nat>, n: nat)
    requires h < 16
    ensures row == MortonRow(h) && n == 256 * Nibble(h)
    ensures row == [n, n + 1, n + 4, n + 5, n + 16, n + 17, n + 20, n + 21,
                    n + 64, n + 65, n + 68, n + 69, n + 80, n + 81, n + 84, n + 85]
  {
    row, n := MortonRow(h), 256 * Nibble(h);
  }
}
