/**
 The points score of a node, over exact reals as an idealisation of the
 float64 arithmetic: a CPU/memory term, a bandwidth term scaled by the NAT
 class, a disk term, all scaled by a factor that shrinks as the edge
 population grows, and truncated to an integer.
 */
module Scoring {
  import opened Nodes

  function Min(a: real, b: real): (r: real)
    ensures r <= a && r <= b && (r == a || r == b)
  {
    if a < b then a else b
  }

  function Max(a: real, b: real): (r: real)
    ensures r >= a && r >= b && (r == a || r == b)
  {
    if a > b then a else b
  }

  /** Bytes per GB (binary). */
  const GiB: real := 1024.0 * 1024.0 * 1024.0

  function BytesToGB(bytes: real): (r: real)
    ensures r * GiB == bytes
  {
    bytes / 1024.0 / 1024.0 / 1024.0
  }

  /** 1 + 2 + ... + n. */
  function Triangular(n: nat): (r: nat)
    ensures r * 2 == n * (n + 1)
  {
    if n == 0 then 0 else n + Triangular(n - 1)
  }

  /**
   How many times a loop `for k := 1.0; k <= min(x, 4); k++` runs: the
   positive whole numbers up to `min(x, 4)`.
   */
  function Steps(x: real): (r: nat)
    ensures r <= 4
    ensures r == 0 || r as real <= Min(x, 4.0)
    ensures (r + 1) as real > Min(x, 4.0)
  {
    if x < 1.0 then 0 else Min(x, 4.0).Floor
  }

  /** The CPU/memory term in closed form: 0.7 times two triangular sums capped at 4. */
  function MC(cores: real, memory: real): real
  {
    (Triangular(Steps(cores)) + Triangular(Steps(memory))) as real * 0.7
  }

  /** The CPU/memory term as the loops compute it. */
  method CalculateMC(i: real, j: real) returns (r: real)
    ensures r == MC(i, j)
    ensures 0.0 <= r <= 14.0
  {
    var sum1 := 0.0;
    var sum2 := 0.0;

    var k := 1.0;
    ghost var n: nat := 0;
    while k <= Min(i, 4.0)
      invariant k == n as real + 1.0
      invariant n <= Steps(i)
      invariant sum1 == Triangular(n) as real
      decreases Steps(i) - n
    {
      sum1 := sum1 + k;
      k := k + 1.0;
      n := n + 1;
    }
    assert n == Steps(i);

    k := 1.0;
    n := 0;
    while k <= Min(j, 4.0)
      invariant k == n as real + 1.0
      invariant n <= Steps(j)
      invariant sum2 == Triangular(n) as real
      decreases Steps(j) - n
    {
      sum2 := sum2 + k;
      k := k + 1.0;
      n := n + 1;
    }
    assert n == Steps(j);

    r := (sum1 + sum2) * 0.7;
    MCBounds(i, j);
  }

  /** The CPU/memory term lies between 0 and 14. */
  lemma MCBounds(cores: real, memory: real)
    ensures 0.0 <= MC(cores, memory) <= 14.0
  {
    TriangularMonotone(Steps(cores), 4);
    TriangularMonotone(Steps(memory), 4);
  }

  lemma {:induction false} TriangularMonotone(a: nat, b: nat)
    requires a <= b
    ensures Triangular(a) <= Triangular(b)
    decreases b - a
  {
    if a < b {
      TriangularMonotone(a, b - 1);
    }
  }

  /** The bandwidth multiplier of a NAT class. */
  function CalculateMN(natType: NatType): (r: real)
    ensures 0.0 <= r <= 2.5
    ensures r == 0.0 <==> natType == UnknownNat
  {
    match natType
    case FullCone => 2.5
    case Restricted => 2.0
    case PortRestricted => 1.5
    case Symmetric => 1.0
    case UnknownNat => 0.0
  }

  /** Distinct NAT classes get distinct multipliers. */
  lemma CalculateMNInjective(a: NatType, b: NatType)
    requires CalculateMN(a) == CalculateMN(b)
    ensures a == b
  {
  }

  /**
   The population factor for `num` registered edge nodes, with the code's
   repeated test kept.
   */
  function Weighting(num: int): (r: real)
    ensures 1.0 <= r <= 2.0
    ensures num <= 2000 <==> r == 2.0
    ensures num > 50000 <==> r == 1.0
  {
    if num <= 2000 then 2.0
    else if num <= 5000 then 1.8
    else if num <= 5000 then 1.8
    else if num <= 10000 then 1.6
    else if num <= 15000 then 1.4
    else if num <= 25000 then 1.3
    else if num <= 35000 then 1.2
    else if num <= 50000 then 1.1
    else 1.0
  }

  /** One row of the population table: up to `bound` edge nodes, the factor is `factor`. */
  datatype Band = Band(bound: int, factor: real)

  /** The population table with each breakpoint once. */
  const PopulationTable: seq<Band> := [
    Band(2000, 2.0), Band(5000, 1.8), Band(10000, 1.6), Band(15000, 1.4),
    Band(25000, 1.3), Band(35000, 1.2), Band(50000, 1.1)]

  /** The factor of the first row whose bound admits `num`; 1 past the last row. */
  function Lookup(table: seq<Band>, num: int): real
  {
    if table == [] then 1.0
    else if num <= table[0].bound then table[0].factor
    else Lookup(table[1..], num)
  }

  /** The repeated test never decides: the factor is the table's. */
  lemma WeightingMatchesTable(num: int)
    ensures Weighting(num) == Lookup(PopulationTable, num)
  {
    var t0 := PopulationTable;
    var t1 := t0[1..];
    var t2 := t1[1..];
    var t3 := t2[1..];
    var t4 := t3[1..];
    var t5 := t4[1..];
    var t6 := t5[1..];
    assert t6 == [Band(50000, 1.1)] && t6[1..] == [];
    assert Lookup(t6, num) == if num <= 50000 then 1.1 else 1.0;
    assert Lookup(t5, num) == if num <= 35000 then 1.2 else Lookup(t6, num);
    assert Lookup(t4, num) == if num <= 25000 then 1.3 else Lookup(t5, num);
    assert Lookup(t3, num) == if num <= 15000 then 1.4 else Lookup(t4, num);
    assert Lookup(t2, num) == if num <= 10000 then 1.6 else Lookup(t3, num);
    assert Lookup(t1, num) == if num <= 5000 then 1.8 else Lookup(t2, num);
    assert Lookup(t0, num) == if num <= 2000 then 2.0 else Lookup(t1, num);
  }

  /** The factor never grows with the population and stays between 1 and 2. */
  lemma WeightingNonIncreasing(a: int, b: int)
    requires a <= b
    ensures 1.0 <= Weighting(b) <= Weighting(a) <= 2.0
  {
  }

  /** Go's conversion of a float to an int: truncation toward zero. */
  function Trunc(x: real): (r: int)
    ensures x >= 0.0 ==> 0 <= r && r as real <= x < r as real + 1.0
    ensures x < 0.0 ==> r <= 0 && r as real - 1.0 < x <= r as real
  {
    if x >= 0.0 then x.Floor else -((-x).Floor)
  }

  lemma TruncMonotone(x: real, y: real)
    requires x <= y
    ensures Trunc(x) <= Trunc(y)
  {
  }

  /** The bandwidth term: 10 plus twice the upload rate in hundreds, capped at 5, times the NAT multiplier. */
  function BandwidthTerm(bandwidthUp: int, natType: NatType): real
  {
    (10.0 + Min(bandwidthUp as real / 100.0, 5.0) * 2.0) * CalculateMN(natType)
  }

  /** The disk term of a disk of `diskSpace` bytes. */
  function DiskTerm(diskSpace: real): real
  {
    var size := BytesToGB(diskSpace);
    Min(size, 2000.0) * (0.01 + 1.0 / Max(size, 1000.0))
  }

  /** The disk term in its three pieces, by size in GB. */
  lemma DiskTermPieces(diskSpace: real)
    ensures var size := BytesToGB(diskSpace);
            && (size <= 1000.0 ==> DiskTerm(diskSpace) == 0.011 * size)
            && (1000.0 < size <= 2000.0 ==> DiskTerm(diskSpace) == 0.01 * size + 1.0)
            && (2000.0 < size ==> DiskTerm(diskSpace) == 20.0 + 2000.0 / size)
  {
    var size := BytesToGB(diskSpace);
    if 1000.0 < size <= 2000.0 {
      assert size * (1.0 / size) == 1.0;
    }
  }

  /** Reserved for penalties; currently neutral. */
  const OnlineFactor: real := 1.0

  /** The sum the population factor scales. */
  function BaseScore(n: Node): real
  {
    MC(n.info.cpuCores as real, n.info.memory) + BandwidthTerm(n.bandwidthUp, n.natType) + DiskTerm(n.info.diskSpace)
  }

  /** The points of node `n` while `edges` edge nodes are registered. */
  function CalculateAndSavePoints(n: Node, edges: int): (r: int)
    ensures n.bandwidthUp >= 0 && n.info.diskSpace >= 0.0 ==> 0 <= r <= 170
  {
    var score := BaseScore(n) * Weighting(edges) * OnlineFactor;
    if n.bandwidthUp >= 0 && n.info.diskSpace >= 0.0 then
      PointsBounds(n, edges);
      Trunc(score)
    else
      Trunc(score)
  }

  /** Points never decrease as the sum before scaling grows. */
  lemma PointsFollowBaseScore(a: Node, b: Node, edges: int)
    requires BaseScore(a) <= BaseScore(b)
    ensures CalculateAndSavePoints(a, edges) <= CalculateAndSavePoints(b, edges)
  {
    var w := Weighting(edges);
    WeightingNonIncreasing(edges, edges);
    ScaleMonotone(BaseScore(a), BaseScore(b), w);
    TruncMonotone(BaseScore(a) * w * OnlineFactor, BaseScore(b) * w * OnlineFactor);
  }

  /** Scaling by a non-negative factor keeps order. */
  lemma ScaleMonotone(x: real, y: real, w: real)
    requires x <= y && 0.0 <= w
    ensures x * w * OnlineFactor <= y * w * OnlineFactor
  {
    assert (y - x) * w >= 0.0;
  }

  lemma StepsMonotone(x: real, y: real)
    requires x <= y
    ensures Steps(x) <= Steps(y)
  {
  }

  /** More CPU cores never lower the points. */
  lemma MoreCoresNoFewerPoints(n: Node, c1: int, c2: int, edges: int)
    requires c1 <= c2
    ensures CalculateAndSavePoints(n.(info := n.info.(cpuCores := c1)), edges)
            <= CalculateAndSavePoints(n.(info := n.info.(cpuCores := c2)), edges)
  {
    StepsMonotone(c1 as real, c2 as real);
    TriangularMonotone(Steps(c1 as real), Steps(c2 as real));
    PointsFollowBaseScore(n.(info := n.info.(cpuCores := c1)), n.(info := n.info.(cpuCores := c2)), edges);
  }

  /** More memory never lowers the points. */
  lemma MoreMemoryNoFewerPoints(n: Node, m1: real, m2: real, edges: int)
    requires m1 <= m2
    ensures CalculateAndSavePoints(n.(info := n.info.(memory := m1)), edges)
            <= CalculateAndSavePoints(n.(info := n.info.(memory := m2)), edges)
  {
    StepsMonotone(m1, m2);
    TriangularMonotone(Steps(m1), Steps(m2));
    PointsFollowBaseScore(n.(info := n.info.(memory := m1)), n.(info := n.info.(memory := m2)), edges);
  }

  /** A faster upload never lowers the points. */
  lemma MoreBandwidthNoFewerPoints(n: Node, b1: int, b2: int, edges: int)
    requires b1 <= b2
    ensures CalculateAndSavePoints(n.(bandwidthUp := b1), edges) <= CalculateAndSavePoints(n.(bandwidthUp := b2), edges)
  {
    assert BandwidthTerm(b1, n.natType) <= BandwidthTerm(b2, n.natType);
    PointsFollowBaseScore(n.(bandwidthUp := b1), n.(bandwidthUp := b2), edges);
  }

  /** Up to 2000 GB, a larger disk never lowers the disk term. */
  lemma DiskTermMonotoneUpTo2000(d1: real, d2: real)
    requires d1 <= d2 && BytesToGB(d2) <= 2000.0
    ensures DiskTerm(d1) <= DiskTerm(d2)
  {
    DiskTermPieces(d1);
    DiskTermPieces(d2);
  }

  /** Up to 2000 GB, a larger disk never lowers the points. */
  lemma MoreDiskNoFewerPoints(n: Node, d1: real, d2: real, edges: int)
    requires d1 <= d2 && BytesToGB(d2) <= 2000.0
    ensures CalculateAndSavePoints(n.(info := n.info.(diskSpace := d1)), edges)
            <= CalculateAndSavePoints(n.(info := n.info.(diskSpace := d2)), edges)
  {
    DiskTermMonotoneUpTo2000(d1, d2);
    PointsFollowBaseScore(n.(info := n.info.(diskSpace := d1)), n.(info := n.info.(diskSpace := d2)), edges);
  }

  /** Past 2000 GB the disk term falls as the disk grows. */
  lemma DiskTermFallsPast2000(d1: real, d2: real)
    requires 2000.0 <= BytesToGB(d1) < BytesToGB(d2)
    ensures DiskTerm(d2) < DiskTerm(d1)
  {
    DiskTermPieces(d1);
    DiskTermPieces(d2);
    QuotientFalls(BytesToGB(d1), BytesToGB(d2));
  }

  lemma QuotientFalls(x: real, y: real)
    requires 0.0 < x < y
    ensures 2000.0 / y < 2000.0 / x
  {
    var qx := 2000.0 / x;
    var qy := 2000.0 / y;
    assert qx * x == 2000.0 && qy * y == 2000.0;
    assert qy > 0.0;
    assert qy * x < qy * y;
    assert qy * x < qx * x;
  }

  /** A node whose points go down when its disk grows from 2000 GB to 4000 GB. */
  lemma PointsFallPast2000()
    ensures var n := Node("d", Edge, 0, 0, 0.0, NodeInfo(0, 0.0, 2000.0 * GiB), UnknownNat, 0, 0, 0);
            && CalculateAndSavePoints(n, 0) == 42
            && CalculateAndSavePoints(n.(info := n.info.(diskSpace := 4000.0 * GiB)), 0) == 41
  {
    var n := Node("d", Edge, 0, 0, 0.0, NodeInfo(0, 0.0, 2000.0 * GiB), UnknownNat, 0, 0, 0);
    DiskTermPieces(2000.0 * GiB);
    DiskTermPieces(4000.0 * GiB);
    assert BaseScore(n) == 21.0;
    assert BaseScore(n.(info := n.info.(diskSpace := 4000.0 * GiB))) == 20.5;
  }

  /**
   4 cores, at least 4 units of memory, upload 200, full-cone NAT, a 1500 GB
   disk and 1000 edge nodes: (14 + 35 + 16) * 2 = 130 points.
   */
  lemma PointsExample(n: Node)
    requires n.info.cpuCores == 4 && n.info.memory >= 4.0 && n.bandwidthUp == 200
    requires n.natType == FullCone && n.info.diskSpace == 1500.0 * GiB
    ensures CalculateAndSavePoints(n, 1000) == 130
  {
    assert Steps(4.0) == 4 && Steps(n.info.memory) == 4;
    assert MC(4.0, n.info.memory) == 14.0;
    assert BandwidthTerm(200, FullCone) == 35.0;
    DiskTermPieces(n.info.diskSpace);
    assert DiskTerm(n.info.diskSpace) == 16.0;
  }

  /** A disk of non-negative size earns between 0 and 21, the value at 2000 GB. */
  lemma DiskTermBounds(diskSpace: real)
    requires diskSpace >= 0.0
    ensures 0.0 <= DiskTerm(diskSpace) <= 21.0
  {
    DiskTermPieces(diskSpace);
    var size := BytesToGB(diskSpace);
    if size > 2000.0 {
      QuotientFalls(2000.0, size);
    }
  }

  /** A non-negative upload rate earns between 0 and 50. */
  lemma BandwidthTermBounds(bandwidthUp: int, natType: NatType)
    requires bandwidthUp >= 0
    ensures 0.0 <= BandwidthTerm(bandwidthUp, natType) <= 50.0
  {
  }

  /** With no negative upload rate or disk size, points lie between 0 and 170. */
  lemma PointsBounds(n: Node, edges: int)
    requires n.bandwidthUp >= 0 && n.info.diskSpace >= 0.0
    ensures 0 <= Trunc(BaseScore(n) * Weighting(edges) * OnlineFactor) <= 170
  {
    MCBounds(n.info.cpuCores as real, n.info.memory);
    DiskTermBounds(n.info.diskSpace);
    BandwidthTermBounds(n.bandwidthUp, n.natType);
    WeightingNonIncreasing(edges, edges);
    ScaledBounds(BaseScore(n), Weighting(edges));
  }

  lemma ScaledBounds(b: real, w: real)
    requires 0.0 <= b <= 85.0 && 1.0 <= w <= 2.0
    ensures 0 <= Trunc(b * w * OnlineFactor) <= 170
  {
    assert b * w <= 85.0 * w;
    assert 0.0 <= b * w;
  }
}
