/**
 What the numbers of Md5Spec are, as sections 3.3 and 3.4 of RFC 1321 say it: the bytes of the
 initial words, the word each step takes and how far it rotates, and the table of sines.
 */
module Md5Tables {
  import opened Words
  import opened Md5Spec

  /** Section 3.3: the four words in bytes, low-order bytes first. */
  lemma InitialBytes()
    ensures Encoded(INITIAL.a) == [0x01, 0x23, 0x45, 0x67]
    ensures Encoded(INITIAL.b) == [0x89, 0xab, 0xcd, 0xef]
    ensures Encoded(INITIAL.c) == [0xfe, 0xdc, 0xba, 0x98]
    ensures Encoded(INITIAL.d) == [0x76, 0x54, 0x32, 0x10]
  {
  }

  predicate IsStep(op: Op, mixer: Mixer, k: nat, s: nat) {
    op.mixer == mixer && op.k == k % 16 && op.s == s
  }

  /** Step i of the four from 4 * q takes the word start + stride * i and the four rotate by
      the numbers s0 to s3. */
  predicate FourSteps(ops: seq<Op>, q: nat, mixer: Mixer, start: nat, stride: nat,
                      s0: nat, s1: nat, s2: nat, s3: nat)
    requires |ops| == 16 && q < 4
  {
    IsStep(ops[4 * q], mixer, start + stride * (4 * q), s0)
    && IsStep(ops[4 * q + 1], mixer, start + stride * (4 * q + 1), s1)
    && IsStep(ops[4 * q + 2], mixer, start + stride * (4 * q + 2), s2)
    && IsStep(ops[4 * q + 3], mixer, start + stride * (4 * q + 3), s3)
  }

  lemma Schedule1()
    ensures |ROUND1| == 16
    ensures FourSteps(ROUND1, 0, F, 0, 1, 7, 12, 17, 22) && FourSteps(ROUND1, 1, F, 0, 1, 7, 12, 17, 22)
    ensures FourSteps(ROUND1, 2, F, 0, 1, 7, 12, 17, 22) && FourSteps(ROUND1, 3, F, 0, 1, 7, 12, 17, 22)
  {
  }

  lemma Schedule2()
    ensures |ROUND2| == 16
    ensures FourSteps(ROUND2, 0, G, 1, 5, 5, 9, 14, 20) && FourSteps(ROUND2, 1, G, 1, 5, 5, 9, 14, 20)
    ensures FourSteps(ROUND2, 2, G, 1, 5, 5, 9, 14, 20) && FourSteps(ROUND2, 3, G, 1, 5, 5, 9, 14, 20)
  {
  }

  lemma Schedule3()
    ensures |ROUND3| == 16
    ensures FourSteps(ROUND3, 0, H, 5, 3, 4, 11, 16, 23) && FourSteps(ROUND3, 1, H, 5, 3, 4, 11, 16, 23)
    ensures FourSteps(ROUND3, 2, H, 5, 3, 4, 11, 16, 23) && FourSteps(ROUND3, 3, H, 5, 3, 4, 11, 16, 23)
  {
  }

  lemma Schedule4()
    ensures |ROUND4| == 16
    ensures FourSteps(ROUND4, 0, I, 0, 7, 6, 10, 15, 21) && FourSteps(ROUND4, 1, I, 0, 7, 6, 10, 15, 21)
    ensures FourSteps(ROUND4, 2, I, 0, 7, 6, 10, 15, 21) && FourSteps(ROUND4, 3, I, 0, 7, 6, 10, 15, 21)
  {
  }

  // ----- sines

  function Factorial(n: nat): (r: nat)
    ensures r > 0
  {
    if n == 0 then 1 else n * Factorial(n - 1)
  }

  function Term(first: nat, k: nat): real {
    1.0 / Factorial(2 * k + first) as real
  }

  /** The first n terms of the power series at 1: of the sine if first is one, of the cosine if
      it is zero. */
  function Series(first: nat, n: nat): real {
    if n == 0 then 0.0
    else if n % 2 == 1 then Series(first, n - 1) + Term(first, n - 1)
    else Series(first, n - 1) - Term(first, n - 1)
  }

  /** The sine and the cosine of i by the addition theorems, with n terms of the series at 1. */
  function Angle(n: nat, i: nat): (real, real) {
    if i == 0 then (0.0, 1.0)
    else
      var last, s, c := Angle(n, i - 1), Series(1, n), Series(0, n);
      (last.0 * c + last.1 * s, last.1 * c - last.0 * s)
  }

  function Abs(x: real): real {
    if x < 0.0 then -x else x
  }

  /** t is the integer part of 2^32 times the absolute value of y, whose fraction is not within
      a hundredth of the next integer on either side. */
  predicate IsPart(t: Word, y: real) {
    t as real + 0.01 <= 4294967296.0 * Abs(y) <= t as real + 0.99
  }

  /** Section 3.4: however many terms are taken, from the sixteenth on, t is the integer part of
      2^32 times the absolute value of the sine of i. */
  ghost predicate IsSine(i: nat, t: Word) {
    forall n: nat :: n >= TERMS ==> IsPart(t, Angle(n, i).0)
  }

  const TERMS: nat := 16

  // ----- the series closes in

  lemma Shrinks(first: nat, k: nat)
    ensures 0.0 < Term(first, k + 1) <= Term(first, k)
  {
    var m := 2 * k + first;
    var f, g := Factorial(m), Factorial(m + 2);
    assert g == (m + 2) * Factorial(m + 1) && Factorial(m + 1) == (m + 1) * f;
    assert Factorial(m + 1) >= f;
    assert g >= f;
    Reciprocals(f as real, g as real);
  }

  lemma Reciprocals(a: real, b: real)
    requires 0.0 < a <= b
    ensures 0.0 < 1.0 / b <= 1.0 / a
  {
    assert a * (1.0 / a) == 1.0 && b * (1.0 / b) == 1.0;
  }

  lemma {:induction false} Closes(first: nat, n: nat)
    requires n >= TERMS
    ensures Series(first, TERMS) <= Series(first, n) <= Series(first, TERMS + 1)
    ensures if n % 2 == 0 then Series(first, n) + Term(first, n) <= Series(first, TERMS + 1)
            else Series(first, n) - Term(first, n) >= Series(first, TERMS)
  {
    hide Term;
    Shrinks(first, n);
    if n > TERMS {
      Closes(first, n - 1);
      Shrinks(first, n - 1);
    }
  }

  // ----- how near the sums are

  const SIN_1 := 0.84147098480789650665250232163029899962
  const COS_1 := 0.54030230586813971740093660744297660373

  /** How far an angle may be off after i turns. */
  function Slack(i: nat): (e: real)
    ensures e >= 0.0000000000000000000000000000000001
  {
    if i == 0 then 0.0000000000000000000000000000000001 else 2.0 * Slack(i - 1)
  }

  predicate Within(x: real, a: real, e: real) {
    a - e <= x <= a + e
  }

  predicate NearWith(n: nat, i: nat, at: (real, real)) {
    Within(Angle(n, i).0, at.0, Slack(i)) && Within(Angle(n, i).1, at.1, Slack(i))
  }

  /** at is about the sine and the cosine of i. */
  ghost predicate Near(i: nat, at: (real, real)) {
    forall n: nat :: n >= TERMS ==> NearWith(n, i, at)
  }

  /** to is one radian on from at, up to the last digits. */
  predicate OneOn(at: (real, real), to: (real, real)) {
    -1.0 <= at.0 <= 1.0 && -1.0 <= at.1 <= 1.0
    && Within(to.0, at.0 * COS_1 + at.1 * SIN_1, 0.0000000000000000000000000000000000001)
    && Within(to.1, at.1 * COS_1 - at.0 * SIN_1, 0.0000000000000000000000000000000000001)
  }

  /** The first n terms over their last denominator f. */
  predicate Sums(first: nat, n: nat, f: nat, a: int) {
    n > 0 && Factorial(2 * (n - 1) + first) == f && Series(first, n) * f as real == a as real
  }

  lemma FactorialNext(m: nat)
    ensures Factorial(m + 2) == Factorial(m) * ((m + 1) * (m + 2))
  {
    assert Factorial(m + 2) == (m + 2) * Factorial(m + 1) && Factorial(m + 1) == (m + 1) * Factorial(m);
  }

  lemma Scale(x: real, g: int, k: int, y: int)
    requires x * g as real == y as real
    ensures x * (g * k) as real == (y * k) as real
  {
    assert (g * k) as real == g as real * k as real;
    assert (y * k) as real == y as real * k as real;
  }

  lemma TermTimes(first: nat, k: nat)
    ensures Term(first, k) * Factorial(2 * k + first) as real == 1.0
  {
  }

  lemma AddTerm(first: nat, n: nat, f: nat, a: int)
    requires Sums(first, n, f, a)
    ensures var k := (2 * n + first - 1) * (2 * n + first);
      Sums(first, n + 1, f * k, a * k + (if n % 2 == 0 then 1 else -1))
  {
    hide Term, Factorial;
    var k := (2 * n + first - 1) * (2 * n + first);
    FactorialNext(2 * (n - 1) + first);
    Scale(Series(first, n), f, k, a);
    TermTimes(first, n);
    assert Series(first, n + 1) == Series(first, n) + Term(first, n)
        || Series(first, n + 1) == Series(first, n) - Term(first, n);
  }

  lemma FirstTerm(first: nat)
    requires first <= 1
    ensures Sums(first, 1, 1, 1)
  {
    assert Factorial(1) == 1 && Factorial(0) == 1;
  }

  lemma SineSums()
    ensures Sums(1, 16, 8222838654177922817725562880000000, 6919280140247535047985089497608089)
    ensures Sums(1, 17, 8683317618811886495518194401280000000, 7306759828101397010672254509474141985)
  {
    hide Sums;
    FirstTerm(1);
    AddTerm(1, 1, 1, 1);
    AddTerm(1, 2, 6, 5);
    AddTerm(1, 3, 120, 101);
    AddTerm(1, 4, 5040, 4241);
    AddTerm(1, 5, 362880, 305353);
    AddTerm(1, 6, 39916800, 33588829);
    AddTerm(1, 7, 6227020800, 5239857325);
    AddTerm(1, 8, 1307674368000, 1100370038249);
    AddTerm(1, 9, 355687428096000, 299300650403729);
    AddTerm(1, 10, 121645100408832000, 102360822438075317);
    AddTerm(1, 11, 51090942171709440000, 42991545423991633141);
    AddTerm(1, 12, 25852016738884976640000, 21753721984539766369345);
    AddTerm(1, 13, 15511210043330985984000000, 13052233190723859821607001);
    AddTerm(1, 14, 10888869450418352160768000000, 9162667699888149594768114701);
    AddTerm(1, 15, 8841761993739701954543616000000, 7440086172309177470951709137213);
    AddTerm(1, 16, 8222838654177922817725562880000000, 6919280140247535047985089497608089);
  }

  lemma CosineSums()
    ensures Sums(0, 16, 265252859812191058636308480000000, 143316731794645238838733428957149)
    ensures Sums(0, 17, 263130836933693530167218012160000000, 142170197940288076928023561525491809)
  {
    hide Sums;
    FirstTerm(0);
    AddTerm(0, 1, 1, 1);
    AddTerm(0, 2, 2, 1);
    AddTerm(0, 3, 24, 13);
    AddTerm(0, 4, 720, 389);
    AddTerm(0, 5, 40320, 21785);
    AddTerm(0, 6, 3628800, 1960649);
    AddTerm(0, 7, 479001600, 258805669);
    AddTerm(0, 8, 87178291200, 47102631757);
    AddTerm(0, 9, 20922789888000, 11304631621681);
    AddTerm(0, 10, 6402373705728000, 3459217276234385);
    AddTerm(0, 11, 2432902008176640000, 1314502564969066301);
    AddTerm(0, 12, 1124000727777607680000, 607300185015708631061);
    AddTerm(0, 13, 620448401733239439360000, 335229702128671164345673);
    AddTerm(0, 14, 403291461126605635584000000, 217899306383636256824687449);
    AddTerm(0, 15, 304888344611713860501504000000, 164731875626029010159463711445);
    AddTerm(0, 16, 265252859812191058636308480000000, 143316731794645238838733428957149);
  }

  lemma SinesAtOne(n: nat)
    requires n >= TERMS
    ensures Within(Series(1, n), SIN_1, 0.000000000000000000000000000000000004)
    ensures Within(Series(0, n), COS_1, 0.000000000000000000000000000000000004)
  {
    hide Series, Factorial;
    Closes(1, n);
    Closes(0, n);
    SineSums();
    CosineSums();
  }

  // ----- the angles

  lemma SlackEight(i: nat)
    ensures Slack(i + 8) == 256.0 * Slack(i)
  {
    assert Slack(i + 8) == 4.0 * Slack(i + 6) && Slack(i + 6) == 4.0 * Slack(i + 4);
    assert Slack(i + 4) == 4.0 * Slack(i + 2) && Slack(i + 2) == 4.0 * Slack(i);
  }

  lemma {:induction false} SlackGrows(i: nat, j: nat)
    requires i <= j
    ensures Slack(i) <= Slack(j)
    decreases j
  {
    if i < j {
      SlackGrows(i, j - 1);
    }
  }

  lemma SlackSmall(i: nat)
    requires i <= 64
    ensures Slack(i) <= 0.00000000000001
  {
    SlackGrows(i, 64);
    SlackEight(0);
    SlackEight(8);
    SlackEight(16);
    SlackEight(24);
    SlackEight(32);
    SlackEight(40);
    SlackEight(48);
    SlackEight(56);
  }

  lemma Positive(a: real, b: real)
    requires a >= 0.0 && b >= 0.0
    ensures a * b >= 0.0
  {
  }

  lemma Small(x: real, z: real, d: real)
    requires -2.0 <= x <= 2.0 && -d <= z <= d
    ensures -2.0 * d <= x * z <= 2.0 * d
  {
    Positive(2.0 - x, d - z);
    Positive(2.0 + x, d + z);
    Positive(2.0 - x, d + z);
    Positive(2.0 + x, d - z);
  }

  lemma Off(x: real, y: real, b: real)
    requires -2.0 <= x <= 2.0 && Within(y, b, 0.000000000000000000000000000000000004)
    ensures Within(x * y, x * b, 0.000000000000000000000000000000000008)
  {
    assert x * y - x * b == x * (y - b);
    Small(x, y - b, 0.000000000000000000000000000000000004);
  }

  lemma TurnWith(n: nat, i: nat, at: (real, real), to: (real, real))
    requires n >= TERMS && i < 64 && NearWith(n, i, at) && OneOn(at, to)
    ensures NearWith(n, i + 1, to)
  {
    hide Series;
    var x, y, s, c := Angle(n, i).0, Angle(n, i).1, Series(1, n), Series(0, n);
    SlackSmall(i);
    SinesAtOne(n);
    Off(x, c, COS_1);
    Off(y, s, SIN_1);
    Off(y, c, COS_1);
    Off(x, s, SIN_1);
  }

  lemma Turn(i: nat, at: (real, real), to: (real, real))
    requires i < 64 && Near(i, at) && OneOn(at, to)
    ensures Near(i + 1, to)
  {
    hide NearWith, OneOn;
    var j := i + 1;
    forall n: nat | n >= TERMS
      ensures NearWith(n, j, to)
    {
      TurnWith(n, i, at, to);
    }
  }

  lemma Upright()
    ensures Near(0, ANGLE_0)
  {
  }

  lemma SineIs(i: nat, at: (real, real), t: Word)
    requires i <= 64 && Near(i, at)
    requires t as real + 0.011 <= 4294967296.0 * Abs(at.0) <= t as real + 0.989
    ensures IsSine(i, t)
  {
    SlackSmall(i);
    assert forall n: nat :: NearWith(n, i, at) ==> IsPart(t, Angle(n, i).0);
  }

  const ANGLE_0 := (0.0, 1.0)
  const ANGLE_1 := (0.84147098480789650665250232163029899962, 0.54030230586813971740093660744297660373)
  const ANGLE_2 := (0.90929742682568169539601986591174484270, -0.41614683654714238699756822950076218977)
  const ANGLE_3 := (0.14112000805986722210074480280811027985, -0.98999249660044545727157279473126130239)
  const ANGLE_4 := (-0.75680249530792825137263909451182909414, -0.65364362086361191463916818309775038142)
  const ANGLE_5 := (-0.95892427466313846889315440615599397335, 0.28366218546322626446663917151355730833)
  const ANGLE_6 := (-0.27941549819892587281155544661189475963, 0.96017028665036602054565229792292440545)
  const ANGLE_7 := (0.65698659871878909039699909159363517794, 0.75390225434330463814119752171918201222)
  const ANGLE_8 := (0.98935824662338177780812359824528867212, -0.14550003380861352586884138183119468261)
  const ANGLE_9 := (0.41211848524175656975627256635243517934, -0.91113026188467698836829471118116531125)
  const ANGLE_10 := (-0.54402111088936981340474766185137728168, -0.83907152907645245225886394782406483452)
  const ANGLE_11 := (-0.99999020655070345705156489902552210684, 0.00442569798805078574835502472394157323)
  const ANGLE_12 := (-0.53657291800043497166537422824240179232, 0.84385395873249210465395529317362178317)
  const ANGLE_13 := (0.42016703682664092186895503547688278831, 0.90744678145019621385268615547447584991)
  const ANGLE_14 := (0.99060735569487030787535480401458560376, 0.13673721820783359424892887667173824055)
  const ANGLE_15 := (0.65028784015711686582974027098887032521, -0.75968791285882127384814640363328054412)
  const ANGLE_16 := (-0.28790331666506529478445624821861752962, -0.95765948032338464189963723265110347178)
  const ANGLE_17 := (-0.96139749187955685726163694486915609849, -0.27516333805159692222034265655186289860)
  const ANGLE_18 := (-0.75098724677167610375015608444711453138, 0.66031670824408014481610004479045078469)
  const ANGLE_19 := (0.14987720966295232975423932123825394945, 0.98870461818666925289835285654815726817)
  const ANGLE_20 := (0.91294525072762765437609998384568230130, 0.40808206181339198606226786092764495710)
  const ANGLE_21 := (0.83665563853605603186648077024502377594, -0.54772926022426842138427113295098200908)
  const ANGLE_22 := (-0.00885130929040387592169025681577233246, -0.99996082639463712645417473921269377414)
  const ANGLE_23 := (-0.84622040417517063524132627190559592774, -0.53283302033339755521575765716412580334)
  const ANGLE_24 := (-0.90557836200662384513579335852779332222, 0.42417900733699697593705094475920647902)
  const ANGLE_25 := (-0.13235175009777302890200509388360630149, 0.99120281186347359808329471881592419680)
  const ANGLE_26 := (0.76255845047960273751582329320456297310, 0.64691932232864034272138390188890160241)
  const ANGLE_27 := (0.95637592840450301343234055832919295047, -0.29213880873383619337140483583762991207)
  const ANGLE_28 := (0.27090578830786901998634309277879253344, -0.96260586631356660197545305789930885057)
  const ANGLE_29 := (-0.66363388421296750215117334006110515112, -0.74805752968900035176519179225514080265)
  const ANGLE_30 := (-0.98803162409286178998774890729445815049, 0.15425144988758405071866214661421019676)
  const ANGLE_31 := (-0.40403764532306500604877089966423719787, 0.91474235780453127896243582615035476616)
  const ANGLE_32 := (0.55142668124169055066155816684571281573, 0.83422336050651027221552647087029230651)
  const ANGLE_33 := (0.99991186010726714572808437670782831435, -0.01327674722305947891522003137100703896)
  const ANGLE_34 := (0.52908268612002382083248713403210475389, -0.84857027478460518659997208771238315926)
  const ANGLE_35 := (-0.42818266949615100440675289174594066565, -0.90369220509150675984730457208377055330)
  const ANGLE_36 := (-0.99177885344311573683528896884081577860, -0.12796368962740468102832797791437121294)
  const ANGLE_37 := (-0.64353813335699946068567001908079554128, 0.76541405194534335649108129290251170057)
  const ANGLE_38 := (0.29636857870938531739229664984901732128, 0.95507364404729485758653623540587695440)
  const ANGLE_39 := (0.96379538628408775326066497176588211510, 0.26664293235993725152682579497563275205)
  const ANGLE_40 := (0.74511316047934878698770940263634434224, -0.66693806165226184438409278193369998786)
  const ANGLE_41 := (-0.15862266880470898710331701192968703186, -0.98733927752382645822882513341482763774)
  const ANGLE_42 := (-0.91652154791563378589898915806967150175, -0.39998531498835129395470733717720202838)
  const ANGLE_43 := (-0.83177474262859828820957825629175224049, 0.55511330152062567704487944196259196454)
  const ANGLE_44 := (0.01770192510541357780795405316661669868, 0.99984330864769122006900901663785603183)
  const ANGLE_45 := (0.85090352453411842486237967761804111908, 0.52532198881772969604746440482356291890)
  const ANGLE_46 := (0.90178834764880918503329303922273856912, -0.43217794488477829495277652413276849861)
  const ANGLE_47 := (0.12357312274522400406152934808641054836, -0.99233546915092871827975242034486215812)
  const ANGLE_48 := (-0.76825466132366679904496566484589349480, -0.64014433946919973131294141939307717952)
  const ANGLE_49 := (-0.95375265275947181836042355858771059528, 0.30059254374363708368702600049056137796)
  const ANGLE_50 := (-0.26237485370392878591439364691262254589, 0.96496602849211327406895705890101699192)
  const ANGLE_51 := (0.67022917584337473449434507495066680811, 0.74215419681378253946737717573695594916)
  const ANGLE_52 := (0.98662759204048529658756893443674011127, -0.16299078079570548100332981542521168622)
  const ANGLE_53 := (0.39592515018183418150338613926353927306, -0.91828278621211889119972632321647208804)
  const ANGLE_54 := (-0.55878904885161624581787131896539379667, -0.82930983286315014772785004248816872232)
  const ANGLE_55 := (-0.99975517335861983659863168324389219923, 0.02212675626195573456356426214662650090)
  const ANGLE_56 := (-0.52155100208691188018741002151060053782, 0.85322010772258411396968123391491375073)
  const ANGLE_57 := (0.43616475524782495908053479312924348827, 0.89986682696919378650300040465783510684)
  const ANGLE_58 := (0.99287264808453711816508816442539981843, 0.11918013544881928543584361076696392246)
  const ANGLE_59 := (0.63673800713913788077123349237682938313, -0.77108022297584522938743529637628919252)
  const ANGLE_60 := (-0.30481062110221670562564946547842584083, -0.95241298041515629269381659599293329691)
  const ANGLE_61 := (-0.96611777000839294701828798948051815177, -0.25810163593826744570120734715275403569)
  const ANGLE_62 := (-0.73918069664922286727601693375543663372, 0.67350716232358625288783340595393649142)
  const ANGLE_63 := (0.16735570030280692152783837028871802902, 0.98589658158254969743863575605397715487)
  const ANGLE_64 := (0.92002603819679068335153660377725186653, 0.39185723042955000516170985851312294210)

  lemma Angles0()
    ensures Near(1, ANGLE_1) && Near(2, ANGLE_2) && Near(3, ANGLE_3) && Near(4, ANGLE_4)
    ensures Near(5, ANGLE_5) && Near(6, ANGLE_6) && Near(7, ANGLE_7) && Near(8, ANGLE_8)
  {
    hide Near;
    Upright();
    Turn(0, ANGLE_0, ANGLE_1);
    Turn(1, ANGLE_1, ANGLE_2);
    Turn(2, ANGLE_2, ANGLE_3);
    Turn(3, ANGLE_3, ANGLE_4);
    Turn(4, ANGLE_4, ANGLE_5);
    Turn(5, ANGLE_5, ANGLE_6);
    Turn(6, ANGLE_6, ANGLE_7);
    Turn(7, ANGLE_7, ANGLE_8);
  }

  lemma Angles1()
    ensures Near(9, ANGLE_9) && Near(10, ANGLE_10) && Near(11, ANGLE_11) && Near(12, ANGLE_12)
    ensures Near(13, ANGLE_13) && Near(14, ANGLE_14) && Near(15, ANGLE_15) && Near(16, ANGLE_16)
  {
    hide Near;
    Angles0();
    Turn(8, ANGLE_8, ANGLE_9);
    Turn(9, ANGLE_9, ANGLE_10);
    Turn(10, ANGLE_10, ANGLE_11);
    Turn(11, ANGLE_11, ANGLE_12);
    Turn(12, ANGLE_12, ANGLE_13);
    Turn(13, ANGLE_13, ANGLE_14);
    Turn(14, ANGLE_14, ANGLE_15);
    Turn(15, ANGLE_15, ANGLE_16);
  }

  lemma Angles2()
    ensures Near(17, ANGLE_17) && Near(18, ANGLE_18) && Near(19, ANGLE_19) && Near(20, ANGLE_20)
    ensures Near(21, ANGLE_21) && Near(22, ANGLE_22) && Near(23, ANGLE_23) && Near(24, ANGLE_24)
  {
    hide Near;
    Angles1();
    Turn(16, ANGLE_16, ANGLE_17);
    Turn(17, ANGLE_17, ANGLE_18);
    Turn(18, ANGLE_18, ANGLE_19);
    Turn(19, ANGLE_19, ANGLE_20);
    Turn(20, ANGLE_20, ANGLE_21);
    Turn(21, ANGLE_21, ANGLE_22);
    Turn(22, ANGLE_22, ANGLE_23);
    Turn(23, ANGLE_23, ANGLE_24);
  }

  lemma Angles3()
    ensures Near(25, ANGLE_25) && Near(26, ANGLE_26) && Near(27, ANGLE_27) && Near(28, ANGLE_28)
    ensures Near(29, ANGLE_29) && Near(30, ANGLE_30) && Near(31, ANGLE_31) && Near(32, ANGLE_32)
  {
    hide Near;
    Angles2();
    Turn(24, ANGLE_24, ANGLE_25);
    Turn(25, ANGLE_25, ANGLE_26);
    Turn(26, ANGLE_26, ANGLE_27);
    Turn(27, ANGLE_27, ANGLE_28);
    Turn(28, ANGLE_28, ANGLE_29);
    Turn(29, ANGLE_29, ANGLE_30);
    Turn(30, ANGLE_30, ANGLE_31);
    Turn(31, ANGLE_31, ANGLE_32);
  }

  lemma Angles4()
    ensures Near(33, ANGLE_33) && Near(34, ANGLE_34) && Near(35, ANGLE_35) && Near(36, ANGLE_36)
    ensures Near(37, ANGLE_37) && Near(38, ANGLE_38) && Near(39, ANGLE_39) && Near(40, ANGLE_40)
  {
    hide Near;
    Angles3();
    Turn(32, ANGLE_32, ANGLE_33);
    Turn(33, ANGLE_33, ANGLE_34);
    Turn(34, ANGLE_34, ANGLE_35);
    Turn(35, ANGLE_35, ANGLE_36);
    Turn(36, ANGLE_36, ANGLE_37);
    Turn(37, ANGLE_37, ANGLE_38);
    Turn(38, ANGLE_38, ANGLE_39);
    Turn(39, ANGLE_39, ANGLE_40);
  }

  lemma Angles5()
    ensures Near(41, ANGLE_41) && Near(42, ANGLE_42) && Near(43, ANGLE_43) && Near(44, ANGLE_44)
    ensures Near(45, ANGLE_45) && Near(46, ANGLE_46) && Near(47, ANGLE_47) && Near(48, ANGLE_48)
  {
    hide Near;
    Angles4();
    Turn(40, ANGLE_40, ANGLE_41);
    Turn(41, ANGLE_41, ANGLE_42);
    Turn(42, ANGLE_42, ANGLE_43);
    Turn(43, ANGLE_43, ANGLE_44);
    Turn(44, ANGLE_44, ANGLE_45);
    Turn(45, ANGLE_45, ANGLE_46);
    Turn(46, ANGLE_46, ANGLE_47);
    Turn(47, ANGLE_47, ANGLE_48);
  }

  lemma Angles6()
    ensures Near(49, ANGLE_49) && Near(50, ANGLE_50) && Near(51, ANGLE_51) && Near(52, ANGLE_52)
    ensures Near(53, ANGLE_53) && Near(54, ANGLE_54) && Near(55, ANGLE_55) && Near(56, ANGLE_56)
  {
    hide Near;
    Angles5();
    Turn(48, ANGLE_48, ANGLE_49);
    Turn(49, ANGLE_49, ANGLE_50);
    Turn(50, ANGLE_50, ANGLE_51);
    Turn(51, ANGLE_51, ANGLE_52);
    Turn(52, ANGLE_52, ANGLE_53);
    Turn(53, ANGLE_53, ANGLE_54);
    Turn(54, ANGLE_54, ANGLE_55);
    Turn(55, ANGLE_55, ANGLE_56);
  }

  lemma Angles7()
    ensures Near(57, ANGLE_57) && Near(58, ANGLE_58) && Near(59, ANGLE_59) && Near(60, ANGLE_60)
    ensures Near(61, ANGLE_61) && Near(62, ANGLE_62) && Near(63, ANGLE_63) && Near(64, ANGLE_64)
  {
    hide Near;
    Angles6();
    Turn(56, ANGLE_56, ANGLE_57);
    Turn(57, ANGLE_57, ANGLE_58);
    Turn(58, ANGLE_58, ANGLE_59);
    Turn(59, ANGLE_59, ANGLE_60);
    Turn(60, ANGLE_60, ANGLE_61);
    Turn(61, ANGLE_61, ANGLE_62);
    Turn(62, ANGLE_62, ANGLE_63);
    Turn(63, ANGLE_63, ANGLE_64);
  }

  /** The four steps from 4 * q of the round behind the first angles add the sines of the next
      angles. */
  ghost predicate FourSines(ops: seq<Op>, q: nat, angles: nat)
    requires |ops| == 16 && q < 4
  {
    IsSine(angles + 4 * q + 1, ops[4 * q].t)
    && IsSine(angles + 4 * q + 2, ops[4 * q + 1].t)
    && IsSine(angles + 4 * q + 3, ops[4 * q + 2].t)
    && IsSine(angles + 4 * q + 4, ops[4 * q + 3].t)
  }

  lemma Sines0()
    ensures |ROUND1| == 16 && FourSines(ROUND1, 0, 0) && FourSines(ROUND1, 1, 0)
  {
    hide Near, IsSine;
    Angles0();
    SineIs(1, ANGLE_1, ROUND1[0].t);
    SineIs(2, ANGLE_2, ROUND1[1].t);
    SineIs(3, ANGLE_3, ROUND1[2].t);
    SineIs(4, ANGLE_4, ROUND1[3].t);
    SineIs(5, ANGLE_5, ROUND1[4].t);
    SineIs(6, ANGLE_6, ROUND1[5].t);
    SineIs(7, ANGLE_7, ROUND1[6].t);
    SineIs(8, ANGLE_8, ROUND1[7].t);
  }

  lemma Sines1()
    ensures |ROUND1| == 16 && FourSines(ROUND1, 2, 0) && FourSines(ROUND1, 3, 0)
  {
    hide Near, IsSine;
    Angles1();
    SineIs(9, ANGLE_9, ROUND1[8].t);
    SineIs(10, ANGLE_10, ROUND1[9].t);
    SineIs(11, ANGLE_11, ROUND1[10].t);
    SineIs(12, ANGLE_12, ROUND1[11].t);
    SineIs(13, ANGLE_13, ROUND1[12].t);
    SineIs(14, ANGLE_14, ROUND1[13].t);
    SineIs(15, ANGLE_15, ROUND1[14].t);
    SineIs(16, ANGLE_16, ROUND1[15].t);
  }

  lemma Sines2()
    ensures |ROUND2| == 16 && FourSines(ROUND2, 0, 16) && FourSines(ROUND2, 1, 16)
  {
    hide Near, IsSine;
    Angles2();
    SineIs(17, ANGLE_17, ROUND2[0].t);
    SineIs(18, ANGLE_18, ROUND2[1].t);
    SineIs(19, ANGLE_19, ROUND2[2].t);
    SineIs(20, ANGLE_20, ROUND2[3].t);
    SineIs(21, ANGLE_21, ROUND2[4].t);
    SineIs(22, ANGLE_22, ROUND2[5].t);
    SineIs(23, ANGLE_23, ROUND2[6].t);
    SineIs(24, ANGLE_24, ROUND2[7].t);
  }

  lemma Sines3()
    ensures |ROUND2| == 16 && FourSines(ROUND2, 2, 16) && FourSines(ROUND2, 3, 16)
  {
    hide Near, IsSine;
    Angles3();
    SineIs(25, ANGLE_25, ROUND2[8].t);
    SineIs(26, ANGLE_26, ROUND2[9].t);
    SineIs(27, ANGLE_27, ROUND2[10].t);
    SineIs(28, ANGLE_28, ROUND2[11].t);
    SineIs(29, ANGLE_29, ROUND2[12].t);
    SineIs(30, ANGLE_30, ROUND2[13].t);
    SineIs(31, ANGLE_31, ROUND2[14].t);
    SineIs(32, ANGLE_32, ROUND2[15].t);
  }

  lemma Sines4()
    ensures |ROUND3| == 16 && FourSines(ROUND3, 0, 32) && FourSines(ROUND3, 1, 32)
  {
    hide Near, IsSine;
    Angles4();
    SineIs(33, ANGLE_33, ROUND3[0].t);
    SineIs(34, ANGLE_34, ROUND3[1].t);
    SineIs(35, ANGLE_35, ROUND3[2].t);
    SineIs(36, ANGLE_36, ROUND3[3].t);
    SineIs(37, ANGLE_37, ROUND3[4].t);
    SineIs(38, ANGLE_38, ROUND3[5].t);
    SineIs(39, ANGLE_39, ROUND3[6].t);
    SineIs(40, ANGLE_40, ROUND3[7].t);
  }

  lemma Sines5()
    ensures |ROUND3| == 16 && FourSines(ROUND3, 2, 32) && FourSines(ROUND3, 3, 32)
  {
    hide Near, IsSine;
    Angles5();
    SineIs(41, ANGLE_41, ROUND3[8].t);
    SineIs(42, ANGLE_42, ROUND3[9].t);
    SineIs(43, ANGLE_43, ROUND3[10].t);
    SineIs(44, ANGLE_44, ROUND3[11].t);
    SineIs(45, ANGLE_45, ROUND3[12].t);
    SineIs(46, ANGLE_46, ROUND3[13].t);
    SineIs(47, ANGLE_47, ROUND3[14].t);
    SineIs(48, ANGLE_48, ROUND3[15].t);
  }

  lemma Sines6()
    ensures |ROUND4| == 16 && FourSines(ROUND4, 0, 48) && FourSines(ROUND4, 1, 48)
  {
    hide Near, IsSine;
    Angles6();
    SineIs(49, ANGLE_49, ROUND4[0].t);
    SineIs(50, ANGLE_50, ROUND4[1].t);
    SineIs(51, ANGLE_51, ROUND4[2].t);
    SineIs(52, ANGLE_52, ROUND4[3].t);
    SineIs(53, ANGLE_53, ROUND4[4].t);
    SineIs(54, ANGLE_54, ROUND4[5].t);
    SineIs(55, ANGLE_55, ROUND4[6].t);
    SineIs(56, ANGLE_56, ROUND4[7].t);
  }

  lemma Sines7()
    ensures |ROUND4| == 16 && FourSines(ROUND4, 2, 48) && FourSines(ROUND4, 3, 48)
  {
    hide Near, IsSine;
    Angles7();
    SineIs(57, ANGLE_57, ROUND4[8].t);
    SineIs(58, ANGLE_58, ROUND4[9].t);
    SineIs(59, ANGLE_59, ROUND4[10].t);
    SineIs(60, ANGLE_60, ROUND4[11].t);
    SineIs(61, ANGLE_61, ROUND4[12].t);
    SineIs(62, ANGLE_62, ROUND4[13].t);
    SineIs(63, ANGLE_63, ROUND4[14].t);
    SineIs(64, ANGLE_64, ROUND4[15].t);
  }

  /** Section 3.4: the steps add the integer parts of 2^32 times the sines of 1 to 64. */
  lemma Sines(q: nat)
    requires q < 4
    ensures |ROUND1| == |ROUND2| == |ROUND3| == |ROUND4| == 16
    ensures FourSines(ROUND1, q, 0)
    ensures FourSines(ROUND2, q, 16)
    ensures FourSines(ROUND3, q, 32)
    ensures FourSines(ROUND4, q, 48)
  {
    hide FourSines;
    Sines0();
    Sines1();
    Sines2();
    Sines3();
    Sines4();
    Sines5();
    Sines6();
    Sines7();
  }
}
