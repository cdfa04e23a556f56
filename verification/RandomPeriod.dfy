/** The generator runs through every number from 1 to 2^31 - 2 before it repeats itself. */
module RandomPeriod {
  import opened Folding
  import opened Arithmetic
  import opened RandomNumbers

  datatype Fold = PowerFold  // the predicates this module keeps folded

  /** `n` calls of the generator. */
  function Iterate(seed: nat, n: nat): nat {
    if n == 0 then seed else Times(Iterate(seed, n - 1), A)
  }

  lemma {:induction false} IterateIsPower(seed: nat, n: nat)
    requires seed < M
    ensures Iterate(seed, n) == Times(seed, Power(n))
    decreases n
  {
    if n > 0 {
      IterateIsPower(seed, n - 1);
      TimesAssociates(seed, Power(n - 1), A);
    }
  }

  // A table of powers of 16807, each from two earlier ones

  ghost predicate PowerIs(e: nat, r: nat) {
    forall u {:trigger Open(u)} :: u == PowerFold ==> Power(e) == r
  }

  lemma FirstPower()
    ensures PowerIs(1, 16807)
  {
    assert Open(PowerFold);
    assert Power(0) == 1 && Power(1) == Times(1, A);
  }

  lemma Join(a: nat, x: nat, b: nat, y: nat, r: nat)
    requires PowerIs(a, x) && PowerIs(b, y) && x * y % M == r
    ensures PowerIs(a + b, r)
  {
    assert Open(PowerFold);
    PowerAdds(a, b);
  }

  lemma Powers1()
    ensures PowerIs(3, 1622650073)
    ensures PowerIs(12, 1115438165)
    ensures PowerIs(108, 70982397)
    ensures PowerIs(126, 1524325968)
    ensures PowerIs(882, 1288775055)
  {
    FirstPower();
    Join(1, 16807, 1, 16807, 282475249);
    Join(2, 282475249, 1, 16807, 1622650073);
    Join(3, 1622650073, 3, 1622650073, 470211272);
    Join(6, 470211272, 6, 470211272, 1115438165);
    Join(12, 1115438165, 6, 470211272, 16531729);
    Join(18, 16531729, 18, 16531729, 704877633);
    Join(36, 704877633, 18, 16531729, 590357944);
    Join(54, 590357944, 54, 590357944, 70982397);
    Join(108, 70982397, 18, 16531729, 1524325968);
    Join(126, 1524325968, 126, 1524325968, 1887638);
    Join(252, 1887638, 126, 1524325968, 937673930);
    Join(378, 937673930, 378, 937673930, 2045329870);
    Join(756, 2045329870, 126, 1524325968, 1288775055);
  }

  lemma Powers2()
    ensures PowerIs(3906, 545626832)
    ensures PowerIs(15624, 711706885)
    ensures PowerIs(42966, 1730649443)
    ensures PowerIs(429660, 1268820004)
  {
    Powers1();
    Join(882, 1288775055, 882, 1288775055, 1863997495);
    Join(1764, 1863997495, 126, 1524325968, 9024039);
    Join(1890, 9024039, 1890, 9024039, 699979281);
    Join(3780, 699979281, 126, 1524325968, 545626832);
    Join(3906, 545626832, 3906, 545626832, 1107444188);
    Join(7812, 1107444188, 7812, 1107444188, 711706885);
    Join(15624, 711706885, 3906, 545626832, 1759547294);
    Join(19530, 1759547294, 19530, 1759547294, 1526749404);
    Join(39060, 1526749404, 3906, 545626832, 1730649443);
    Join(42966, 1730649443, 42966, 1730649443, 1376674263);
    Join(85932, 1376674263, 85932, 1376674263, 1233326474);
    Join(171864, 1233326474, 42966, 1730649443, 1018536654);
    Join(214830, 1018536654, 214830, 1018536654, 1268820004);
  }

  lemma Powers3()
    ensures PowerIs(144522, 1292833987)
    ensures PowerIs(14221746, 1013763951)
  {
    Powers2();
    Join(429660, 1268820004, 429660, 1268820004, 1612600255);
    Join(859320, 1612600255, 859320, 1612600255, 1146547535);
    Join(1718640, 1146547535, 42966, 1730649443, 1682133510);
    Join(1761606, 1682133510, 1761606, 1682133510, 133508022);
    Join(3523212, 133508022, 3523212, 133508022, 642862021);
    Join(7046424, 642862021, 42966, 1730649443, 432825610);
    Join(7089390, 432825610, 7089390, 432825610, 688128574);
    Join(14178780, 688128574, 42966, 1730649443, 1013763951);
    Join(15624, 711706885, 15624, 711706885, 1511387335);
    Join(31248, 1511387335, 3906, 545626832, 1928453026);
    Join(35154, 1928453026, 35154, 1928453026, 1923820219);
    Join(70308, 1923820219, 70308, 1923820219, 263040411);
    Join(140616, 263040411, 3906, 545626832, 1292833987);
  }

  lemma Powers4()
    ensures PowerIs(589806, 728550981)
    ensures PowerIs(5898060, 1513975655)
    ensures PowerIs(96728184, 1067596380)
  {
    Powers2();
    Powers3();
    Join(144522, 1292833987, 144522, 1292833987, 1827484490);
    Join(289044, 1827484490, 3906, 545626832, 850603816);
    Join(292950, 850603816, 292950, 850603816, 783592941);
    Join(585900, 783592941, 3906, 545626832, 728550981);
    Join(589806, 728550981, 589806, 728550981, 1831245228);
    Join(1179612, 1831245228, 1179612, 1831245228, 463826459);
    Join(2359224, 463826459, 589806, 728550981, 401963622);
    Join(2949030, 401963622, 2949030, 401963622, 1513975655);
    Join(5898060, 1513975655, 5898060, 1513975655, 1932459414);
    Join(11796120, 1932459414, 11796120, 1932459414, 1220564174);
    Join(23592240, 1220564174, 589806, 728550981, 1504383879);
    Join(24182046, 1504383879, 24182046, 1504383879, 883432703);
    Join(48364092, 883432703, 48364092, 883432703, 1067596380);
  }

  lemma Powers5()
    ensures PowerIs(453, 1187262410)
    ensures PowerIs(1812, 1016168508)
    ensures PowerIs(6487866, 759513457)
    ensures PowerIs(195225786, 298192073)
  {
    Powers1();
    Powers4();
    Join(96728184, 1067596380, 589806, 728550981, 1511414227);
    Join(97317990, 1511414227, 97317990, 1511414227, 724555297);
    Join(194635980, 724555297, 589806, 728550981, 298192073);
    Join(5898060, 1513975655, 589806, 728550981, 759513457);
    Join(12, 1115438165, 12, 1115438165, 1998097157);
    Join(24, 1998097157, 3, 1622650073, 197493099);
    Join(108, 70982397, 3, 1622650073, 2051621609);
    Join(111, 2051621609, 111, 2051621609, 1127401868);
    Join(222, 1127401868, 3, 1622650073, 1532062767);
    Join(225, 1532062767, 225, 1532062767, 1318824511);
    Join(450, 1318824511, 3, 1622650073, 1187262410);
    Join(453, 1187262410, 453, 1187262410, 1432063067);
    Join(906, 1432063067, 906, 1432063067, 1016168508);
  }

  lemma Powers6()
    ensures PowerIs(4983, 25230120)
    ensures PowerIs(822195, 219253046)
  {
    Powers5();
    Join(1812, 1016168508, 453, 1187262410, 952539874);
    Join(2265, 952539874, 2265, 952539874, 1820044081);
    Join(4530, 1820044081, 453, 1187262410, 25230120);
    Join(4983, 25230120, 4983, 25230120, 1852570660);
    Join(9966, 1852570660, 9966, 1852570660, 229693832);
    Join(19932, 229693832, 4983, 25230120, 1427341993);
    Join(24915, 1427341993, 24915, 1427341993, 441581587);
    Join(49830, 441581587, 49830, 441581587, 1838515704);
    Join(99660, 1838515704, 99660, 1838515704, 1184691989);
    Join(199320, 1184691989, 4983, 25230120, 253531067);
    Join(204303, 253531067, 204303, 253531067, 301007770);
    Join(408606, 301007770, 408606, 301007770, 1048888168);
    Join(817212, 1048888168, 4983, 25230120, 219253046);
  }

  lemma Powers7()
    ensures PowerIs(3298746, 2134216551)
    ensures PowerIs(9896238, 1853715678)
    ensures PowerIs(11545611, 1277545001)
    ensures PowerIs(69273666, 16384)
    ensures PowerIs(346368330, 256)
  {
    Powers6();
    Join(822195, 219253046, 822195, 219253046, 813482);
    Join(1644390, 813482, 4983, 25230120, 747263461);
    Join(1649373, 747263461, 1649373, 747263461, 2134216551);
    Join(3298746, 2134216551, 1649373, 747263461, 1095786122);
    Join(4948119, 1095786122, 4948119, 1095786122, 1853715678);
    Join(9896238, 1853715678, 1649373, 747263461, 1277545001);
    Join(11545611, 1277545001, 11545611, 1277545001, 348890570);
    Join(23091222, 348890570, 11545611, 1277545001, 2147483519);
    Join(34636833, 2147483519, 34636833, 2147483519, 16384);
    Join(69273666, 16384, 11545611, 1277545001, 1921672722);
    Join(80819277, 1921672722, 80819277, 1921672722, 580482233);
    Join(161638554, 580482233, 11545611, 1277545001, 2147483631);
    Join(173184165, 2147483631, 173184165, 2147483631, 256);
  }

  lemma Powers8()
    ensures PowerIs(306783378, 1600955193)
    ensures PowerIs(715827882, 634005911)
    ensures PowerIs(1073741823, 2147483646)
    ensures PowerIs(2147483646, 1)
  {
    Powers7();
    Join(346368330, 256, 11545611, 1277545001, 634005912);
    Join(357913941, 634005912, 357913941, 634005912, 634005911);
    Join(715827882, 634005911, 357913941, 634005912, 2147483646);
    Join(3298746, 2134216551, 3298746, 2134216551, 1634114155);
    Join(9896238, 1853715678, 9896238, 1853715678, 2105936984);
    Join(19792476, 2105936984, 9896238, 1853715678, 1529400943);
    Join(29688714, 1529400943, 29688714, 1529400943, 1410524841);
    Join(69273666, 16384, 69273666, 16384, 268435456);
    Join(138547332, 268435456, 9896238, 1853715678, 1842327195);
    Join(148443570, 1842327195, 148443570, 1842327195, 838211633);
    Join(296887140, 838211633, 9896238, 1853715678, 1600955193);
    Join(1073741823, 2147483646, 1073741823, 2147483646, 1);
  }

  lemma Known(e: nat, r: nat)
    requires PowerIs(e, r)
    ensures Power(e) == r
  {
    assert Open(PowerFold);
  }

  lemma NotOne(e: nat, r: nat)
    requires PowerIs(e, r) && r != 1
    ensures !PowerIs(e, 1)
  {
    assert Open(PowerFold);
  }

  /** The prime factors of the period. */
  const FACTORS: seq<nat> := [2, 3, 7, 11, 31, 151, 331]

  /** A whole turn comes back to 1. */
  lemma WholeTurn()
    ensures Power(PERIOD) == 1
  {
    Powers8();
    Known(PERIOD, 1);
  }

  /** No turn shortened by a prime factor does. */
  lemma ShortTurn(q: nat)
    requires q in FACTORS
    ensures PERIOD % q == 0 && !PowerIs(PERIOD / q, 1)
  {
    Powers3();
    Powers5();
    Powers7();
    Powers8();
    if q == 2 {
      NotOne(PERIOD / 2, 2147483646);
    } else if q == 3 {
      NotOne(PERIOD / 3, 634005911);
    } else if q == 7 {
      NotOne(PERIOD / 7, 1600955193);
    } else if q == 11 {
      NotOne(PERIOD / 11, 298192073);
    } else if q == 31 {
      NotOne(PERIOD / 31, 16384);
    } else if q == 151 {
      NotOne(PERIOD / 151, 1013763951);
    } else {
      NotOne(PERIOD / 331, 759513457);
    }
  }

  // The order of 16807

  lemma {:induction false} PowerMultiple(d: nat, k: nat)
    requires Power(d) == 1
    ensures Power(k * d) == 1
    decreases k
  {
    if k == 0 {
      assert k * d == 0;
    } else {
      PowerMultiple(d, k - 1);
      assert k * d == (k - 1) * d + d;
      PowerAdds((k - 1) * d, d);
    }
  }

  /** `d` is the smallest exponent that gives 1. */
  ghost predicate Order(d: nat) {
    d > 0 && Power(d) == 1 && forall e :: 0 < e < d ==> Power(e) != 1
  }

  lemma {:induction false} OrderExists(n: nat) returns (d: nat)
    requires n > 0 && Power(n) == 1
    ensures Order(d) && d <= n
  {
    if e: nat :| 0 < e < n && Power(e) == 1 {
      d := OrderExists(e);
    } else {
      d := n;
    }
  }

  lemma OrderDivides(d: nat, n: nat)
    requires Order(d) && Power(n) == 1
    ensures n % d == 0
  {
    var k, r := n / d, n % d;
    assert n == k * d + r;
    PowerMultiple(d, k);
    PowerAdds(k * d, r);
    assert Power(r) == 1;
  }

  // Division

  ghost predicate Divides(a: int, n: int) {
    exists k: int :: n == a * k
  }

  lemma DividesBy(a: int, n: int, k: int)
    requires n == a * k
    ensures Divides(a, n)
  {
  }

  /** Euclid's algorithm: the greatest common divisor as a combination. */
  lemma {:induction false} Bezout(a: nat, b: nat) returns (g: int, x: int, y: int)
    requires a > 0 || b > 0
    ensures g > 0 && g == a * x + b * y && Divides(g, a) && Divides(g, b)
    decreases b
  {
    if b == 0 {
      g, x, y := a, 1, 0;
      DividesBy(g, a, 1);
      DividesBy(g, 0, 0);
    } else {
      var q := a / b;
      var u, v;
      g, u, v := Bezout(b, a % b);
      x, y := v, u - q * v;
      assert a == b * q + a % b;
      assert a * x + b * y == b * u + (a - b * q) * v by {
        assert a * v + b * (u - q * v) == b * u + a * v - b * (q * v);
        assert b * (q * v) == (b * q) * v;
        assert (a - b * q) * v == a * v - (b * q) * v;
      }
      var k: int :| b == g * k;
      var l: int :| a % b == g * l;
      assert g * (k * q + l) == (g * k) * q + g * l;
      DividesBy(g, a, k * q + l);
    }
  }

  ghost predicate Prime(q: nat) {
    q >= 2 && forall g :: Divides(g, q) && g > 0 ==> g == 1 || g == q
  }

  /** A number without factors up to its square root is prime. */
  lemma PrimeByTrial(q: nat, b: nat)
    requires 2 <= q < (b + 1) * (b + 1) && forall i :: 2 <= i <= b && i < q ==> q % i != 0
    ensures Prime(q)
  {
    forall g | Divides(g, q) && g > 0 ensures g == 1 || g == q {
      var k: int :| q == g * k;
      Factors(q, g, k, b);
    }
  }

  lemma Factors(q: nat, g: int, k: int, b: nat)
    requires 2 <= q < (b + 1) * (b + 1) && q == g * k && g > 0
    requires forall i :: 2 <= i <= b && i < q ==> q % i != 0
    ensures g == 1 || k == 1
  {
    Positive(g, k);
    if g > 1 && k > 1 {
      Grows(g, k);
      Grows(k, g);
      if g > b && k > b {
        Grows2(g, k, b + 1);
      } else if g <= b {
        ModMultiple(k, g);
      } else {
        ModMultiple(g, k);
      }
    }
  }

  lemma Positive(g: int, k: int)
    requires g > 0 && g * k > 0
    ensures k > 0
  {
    if k <= 0 {
      Multiply(k, 0, g);
    }
  }

  lemma Grows(g: int, k: int)
    requires g > 1 && k > 1
    ensures g < g * k
  {
    assert g * k == g + g * (k - 1) && g * (k - 1) > 0;
  }

  lemma Grows2(g: int, k: int, b: int)
    requires g >= b >= 0 && k >= b
    ensures g * k >= b * b
  {
    assert g * k == b * b + (g - b) * k + b * (k - b);
    assert (g - b) * k >= 0 && b * (k - b) >= 0;
  }

  lemma ModMultiple(k: int, n: nat)
    requires n > 0
    ensures (k * n) % n == 0 && (k * n) / n == k && (n * k) % n == 0
  {
    ModUnique(k, 0, n);
  }

  /** A prime that does not divide `k` can be taken out of a product that `k` divides. */
  lemma Strip(k: nat, q: nat, m: nat)
    requires k > 0 && Prime(q) && !Divides(q, k) && Divides(k, q * m)
    ensures Divides(k, m)
  {
    var g, x, y := Bezout(k, q);
    assert g == 1;
    var t: int :| q * m == k * t;
    assert m == (k * x + q * y) * m;
    assert (k * x + q * y) * m == k * (x * m) + (q * m) * y;
    assert (k * t) * y == k * (t * y);
    assert k * (x * m) + k * (t * y) == k * (x * m + t * y);
    DividesBy(k, m, x * m + t * y);
  }

  lemma Primes(q: nat)
    requires q in FACTORS
    ensures Prime(q)
  {
    PrimeByTrial(q, if q < 4 then 1 else if q < 9 then 2 else if q < 32 then 5 else 18);
  }

  /** The cofactor of the order has none of the prime factors of the period. */
  lemma NoFactor(d: nat, k: nat, q: nat)
    requires Order(d) && k * d == PERIOD && q in FACTORS
    ensures !Divides(q, k)
  {
    if Divides(q, k) {
      var j: int :| k == q * j;
      ShortTurn(q);
      assert (q * j) * d == q * (j * d);
      ModMultiple(j * d, q);
      assert PERIOD / q == j * d;
      Positive(q, j);
      PowerMultiple(d, j);
    }
  }

  lemma OrderIsPeriod(d: nat)
    requires Order(d)
    ensures d == PERIOD
  {
    WholeTurn();
    OrderDivides(d, PERIOD);
    var k := PERIOD / d;
    assert PERIOD == k * d;
    Positive(d, k);
    forall q | q in FACTORS ensures Prime(q) && !Divides(q, k) {
      Primes(q);
      NoFactor(d, k, q);
    }
    DividesBy(k, PERIOD, d);
    Strip(k, 2, 1073741823);
    Strip(k, 3, 357913941);
    Strip(k, 3, 119304647);
    Strip(k, 7, 17043521);
    Strip(k, 11, 1549411);
    Strip(k, 31, 49981);
    Strip(k, 151, 331);
    Strip(k, 331, 1);
    var t: int :| 1 == k * t;
    Positive(k, t);
    if k > 1 && t > 1 {
      Grows(k, t);
    }
  }

  // Every number is reached

  lemma PowerIsSeed(e: nat)
    ensures Seed(Power(e))
    decreases e
  {
    if e > 0 {
      PowerIsSeed(e - 1);
      FoldedSum(Power(e - 1));
    }
  }

  /** A factor can be cancelled from an equation between powers. */
  lemma {:induction false} Cancel(i: nat, x: nat)
    requires x < M && Times(Power(i), x) == Power(i)
    ensures x == 1
    decreases i
  {
    if i == 0 {
      Residue(x, 0, x);
    } else {
      var y := Times(Power(i - 1), x);
      TimesAssociates(Power(i - 1), A, x);
      TimesAssociates(Power(i - 1), x, A);
      assert x * A == A * x;
      TimesInverse(y);
      TimesInverse(Power(i - 1));
      Cancel(i - 1, x);
    }
  }

  /** Within a period the powers differ. */
  lemma PowersDiffer(i: nat, j: nat)
    requires i < j < i + PERIOD
    ensures Power(i) != Power(j)
  {
    if Power(i) == Power(j) {
      PowerAdds(i, j - i);
      Cancel(i, Power(j - i));
      var d := OrderExists(j - i);
      OrderIsPeriod(d);
    }
  }

  ghost function Reached(n: nat): set<nat> {
    if n == 0 then {} else Reached(n - 1) + {Power(n - 1)}
  }

  lemma {:induction false} ReachedBy(n: nat, v: nat) returns (i: nat)
    requires v in Reached(n)
    ensures i < n && Power(i) == v
    decreases n
  {
    if v == Power(n - 1) {
      i := n - 1;
    } else {
      i := ReachedBy(n - 1, v);
    }
  }

  lemma {:induction false} ReachedSize(n: nat)
    requires n <= PERIOD
    ensures |Reached(n)| == n
    decreases n
  {
    if n > 0 {
      ReachedSize(n - 1);
      if Power(n - 1) in Reached(n - 1) {
        var i := ReachedBy(n - 1, Power(n - 1));
        PowersDiffer(i, n - 1);
      }
    }
  }

  ghost function Upto(n: nat): (s: set<nat>)
    ensures |s| == n && forall v :: v in s <==> 0 < v <= n
  {
    if n == 0 then {} else Upto(n - 1) + {n}
  }

  lemma SubsetOfSameSize(s: set<nat>, t: set<nat>)
    requires s <= t && |s| == |t|
    ensures s == t
  {
    assert |t - s| == |t| - |s|;
  }

  lemma EverySeedIsAPower(v: nat) returns (i: nat)
    requires Seed(v)
    ensures i < PERIOD && Power(i) == v
  {
    var n := PERIOD;
    ReachedSize(n);
    forall w | w in Reached(n) ensures w in Upto(n) {
      var j := ReachedBy(n, w);
      PowerIsSeed(j);
    }
    SubsetOfSameSize(Reached(n), Upto(n));
    assert v in Upto(n);
    i := ReachedBy(n, v);
  }

  /** From any seed, the generator comes to any number from 1 to 2^31 - 2 within one period. */
  lemma FullPeriod(seed: nat, v: nat) returns (n: nat)
    requires Seed(seed) && Seed(v)
    ensures n < PERIOD && Iterate(seed, n) == v
  {
    var a := EverySeedIsAPower(seed);
    var b := EverySeedIsAPower(v);
    if b >= a {
      n := b - a;
    } else {
      n := b - a + PERIOD;
      PowerAdds(b, PERIOD);
      WholeTurn();
      Residue(Power(b), 0, Power(b));
    }
    PowerAdds(a, n);
    IterateIsPower(seed, n);
  }

  /** And it comes back to the seed after a whole period, never earlier. */
  lemma NoShorterPeriod(seed: nat, n: nat)
    requires Seed(seed) && 0 < n <= PERIOD
    ensures Iterate(seed, n) == seed <==> n == PERIOD
  {
    var a := EverySeedIsAPower(seed);
    IterateIsPower(seed, n);
    PowerAdds(a, n);
    if n < PERIOD {
      PowersDiffer(a, a + n);
    } else {
      WholeTurn();
      Residue(seed, 0, seed);
    }
  }
}
