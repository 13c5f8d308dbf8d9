/** Large powers of the step, applied to the all-ones register, as polynomials of degree below 32: reduced by one that
    takes that register to zero, doubled by squaring. */
module StepPowers {
  import opened Xorshift
  import opened StepAlgebra

  /** On the all-ones register e steps are the polynomial q. */
  ghost predicate Is(e: nat, q: Poly) {
    Far(ONES, e) == Act(q, ONES)
  }

  /** The polynomial of degree 32 that takes the all-ones register to zero. */
  const MODULUS: Poly := Poly(0x1_003e_c241)

  function Shr(c: bv64): bv64 {
    c >> 1
  }

  function Shr4(c: bv64): bv64 {
    Shr(Shr(Shr(Shr(c))))
  }

  lemma HalfIsShr(c: bv64)
    ensures Half(Poly(c)) == Poly(Shr(c)) && Odd(Poly(c)) == (c & 1 == 1)
  {
  }

  /** One coefficient more, on top of what the higher ones come to. */
  function Next(c: bv64, u: Register): Register {
    if c & 1 == 1 then TOP ^ Step(u) else Step(u)
  }

  lemma NextSum(c: bv64, u: Register)
    ensures Sum(Times(c & 1 == 1, ONES), Vec(u)) == Vec(if c & 1 == 1 then TOP ^ u else u)
  {
    SumNil(Vec(u));
  }

  lemma NextIs(c: bv64, u: Register)
    requires Act(Poly(Shr(c)), ONES) == Vec(u)
    ensures Act(Poly(c), ONES) == Vec(Next(c, u))
  {
    hide Act, Half, Odd, Shr, Sum, Times, Step;
    ActStep(Poly(c), ONES);
    HalfIsShr(c);
    NextSum(c, Step(u));
  }

  function Next4(c: bv64, u: Register): Register {
    Next(c, Next(Shr(c), Next(Shr(Shr(c)), Next(Shr(Shr(Shr(c))), u))))
  }

  lemma Next4Is(c: bv64, u: Register)
    requires Act(Poly(Shr4(c)), ONES) == Vec(u)
    ensures Act(Poly(c), ONES) == Vec(Next4(c, u))
  {
    hide Act, Next, Shr;
    var c1, c2, c3 := Shr(c), Shr(Shr(c)), Shr(Shr(Shr(c)));
    NextIs(c3, u);
    NextIs(c2, Next(c3, u));
    NextIs(c1, Next(c2, Next(c3, u)));
    NextIs(c, Next(c1, Next(c2, Next(c3, u))));
  }

  lemma NoPoly()
    ensures Act(Poly(0), ONES) == Vec(0)
  {
  }

  /** Four coefficients at a time, from the highest down. */
  lemma Ever(c: bv64, d: bv64, u: Register, v: Register)
    requires Shr4(c) == d && Next4(c, u) == v && Act(Poly(d), ONES) == Vec(u)
    ensures Act(Poly(c), ONES) == Vec(v)
  {
    hide *;
    Next4Is(c, u);
  }

  /** The modulus takes the all-ones register to zero. */
  lemma ModulusVanishes()
    ensures Act(Poly(0x1_003e_c241), ONES) == Vec(0x0)
  {
    hide Act;
    NoPoly();
    Ever(0x1, 0x0, 0x0, 0xffff_ffff);
    Ever(0x10, 0x1, 0xffff_ffff, 0xf1cc_88da);
    Ever(0x100, 0x10, 0xf1cc_88da, 0x10ad_81fb);
    Ever(0x1003, 0x100, 0x10ad_81fb, 0x2033_f51c);
    Ever(0x1_003e, 0x1003, 0x2033_f51c, 0x1d27_986d);
    Ever(0x10_03ec, 0x1_003e, 0x1d27_986d, 0xf96c_2558);
    Ever(0x100_3ec2, 0x10_03ec, 0xf96c_2558, 0x3085_c860);
    Ever(0x1003_ec24, 0x100_3ec2, 0x3085_c860, 0x91fa_bc02);
    Ever(0x1_003e_c241, 0x1003_ec24, 0x91fa_bc02, 0x0);
  }

  /** A polynomial reduced by the modulus. */
  predicate Small(q: Poly) {
    q.word & 0xffff_ffff == q.word
  }

  function Doubled(q: Poly): Poly {
    Poly(q.word << 1)
  }

  predicate Overflows(w: bv64) {
    (w << 1) & 0x1_0000_0000 != 0
  }

  /** One power more, reduced. */
  function TimesX(w: bv64): bv64 {
    if Overflows(w) then (w << 1) ^ 0x1_003e_c241 else w << 1
  }

  lemma DoubledAt(w: bv64)
    ensures Doubled(Poly(w)) == Poly(w << 1)
  {
  }

  lemma SmallAt(w: bv64)
    ensures Small(Poly(w)) <==> w & 0xffff_ffff == w
  {
  }

  lemma Reduced(w: bv64)
    ensures Add(Poly(w << 1), MODULUS) == Poly((w << 1) ^ 0x1_003e_c241)
  {
  }

  lemma OverflowIsSmall(w: bv64)
    requires w & 0xffff_ffff == w
    ensures Overflows(w) ==> Small(Poly((w << 1) ^ 0x1_003e_c241))
    ensures !Overflows(w) ==> Small(Poly(w << 1))
  {
  }

  lemma TimesXIs(w: bv64)
    requires Small(Poly(w))
    ensures Poly(TimesX(w)) == if Overflows(w) then Add(Doubled(Poly(w)), MODULUS) else Doubled(Poly(w))
    ensures Small(Poly(TimesX(w)))
  {
    hide Add, Doubled, Small, Overflows;
    DoubledAt(w);
    SmallAt(w);
    Reduced(w);
    OverflowIsSmall(w);
  }

  lemma DoubledIs(q: Poly)
    requires Small(q)
    ensures Half(Doubled(q)) == q && !Odd(Doubled(q))
  {
  }

  lemma ActDoubled(q: Poly, a: Vec)
    requires Small(q)
    ensures Act(Doubled(q), a) == Go(Act(q, a))
  {
    hide *;
    DoubledIs(q);
    ActStep(Doubled(q), a);
    TimesFalse(a);
    SumNil(Go(Act(q, a)));
  }

  lemma TimesFalse(a: Vec)
    ensures Times(false, a) == NIL && Times(true, a) == a
  {
  }

  /** One step more is one power more. */
  lemma OneMore(e: nat, w: bv64)
    requires Is(e, Poly(w)) && Small(Poly(w))
    ensures Is(e + 1, Poly(TimesX(w))) && Small(Poly(TimesX(w)))
  {
    hide Act, Small, Overflows, Doubled, TimesX, Go, Sum, Add;
    TimesXIs(w);
    ActDoubled(Poly(w), ONES);
    ActOfAdd(Doubled(Poly(w)), MODULUS, ONES);
    ModulusVanishes();
    SumNil(Go(Act(Poly(w), ONES)));
  }

  // ------------------------------------------------------------ squaring, by table --

  /** The powers by two steps. */
  function Even(i: nat): bv64 {
    if i == 0 then 1 else TimesX(TimesX(Even(i - 1)))
  }

  lemma One()
    ensures Act(Poly(1), ONES) == ONES && Far(ONES, 0) == ONES && Small(Poly(1))
  {
    ActStep(Poly(1), ONES);
    assert Half(Poly(1)) == ZERO && Odd(Poly(1));
    hide Act;
    ActZero(ONES);
    GoIsLinear(NIL, NIL);
    SumNil(ONES);
    hide Go, Sum;
  }

  lemma {:induction false} EvenIs(i: nat)
    ensures Is(2 * i, Poly(Even(i))) && Small(Poly(Even(i)))
  {
    hide Act, Small, TimesX, Far;
    if i == 0 {
      One();
    } else {
      EvenIs(i - 1);
      hide Is;
      OneMore(2 * (i - 1), Even(i - 1));
      OneMore(2 * (i - 1) + 1, TimesX(Even(i - 1)));
    }
  }

  /** The even powers that c(step * step) is the sum of, from 2i on. */
  function Squares(c: Poly, i: nat): Poly
    decreases c.word
  {
    if c == ZERO then ZERO
    else
      HalfShrinks(c);
      Add(if Odd(c) then Poly(Even(i)) else ZERO, Squares(Half(c), i + 1))
  }

  lemma SquaresUnfold(c: Poly, i: nat)
    ensures c != ZERO ==> Squares(c, i) == Add(if Odd(c) then Poly(Even(i)) else ZERO, Squares(Half(c), i + 1))
    ensures Squares(ZERO, i) == ZERO
  {
    HalfShrinks(c);
    hide Odd, Half, Even, Add;
  }

  lemma SquaresStep(c: Poly, i: nat)
    requires c != ZERO && Far(ActSquared(Half(c), ONES), 2 * i + 2) == Act(Squares(Half(c), i + 1), ONES)
    ensures Far(ActSquared(c, ONES), 2 * i) == Act(Squares(c, i), ONES)
  {
    hide *;
    var rest, term := ActSquared(Half(c), ONES), if Odd(c) then Poly(Even(i)) else ZERO;
    SquaredStep(c, ONES);
    EvenIs(i);
    ActZero(ONES);
    FarNil(2 * i);
    TimesFalse(ONES);
    IsMeans(2 * i, Poly(Even(i)));
    FarOfSum(Times(Odd(c), ONES), Go(Go(rest)), 2 * i);
    TwoFirst(rest, 2 * i);
    SquaresUnfold(c, i);
    ActOfAdd(term, Squares(Half(c), i + 1), ONES);
  }

  lemma IsMeans(e: nat, q: Poly)
    ensures Is(e, q) <==> Far(ONES, e) == Act(q, ONES)
  {
  }

  lemma TwoFirst(a: Vec, n: nat)
    ensures Far(Go(Go(a)), n) == Far(a, n + 2)
  {
    FarThen(a, 2, n);
    assert Far(a, 1) == Go(Far(a, 0));
    assert Far(a, 2) == Go(Far(a, 1));
    hide Go;
  }

  lemma {:induction false} SquaresAct(c: Poly, i: nat)
    ensures Far(ActSquared(c, ONES), 2 * i) == Act(Squares(c, i), ONES)
    decreases c.word
  {
    hide *;
    HalfShrinks(c);
    if c == ZERO {
      SquaredStep(c, ONES);
      SquaresUnfold(c, i);
      ActZero(ONES);
      FarNil(2 * i);
    } else {
      SquaresAct(Half(c), i + 1);
      SquaresStep(c, i);
    }
  }

  function Pick(bit: bool, t: bv64, rest: bv64): bv64 {
    if bit then t ^ rest else rest
  }

  /** The term of c's lowest coefficient, and the rest. */
  function Term(c: bv64, t: bv64, rest: bv64): bv64 {
    Pick(c & 1 == 1, t, rest)
  }

  lemma AddTerm(c: bv64, t: bv64, rest: bv64)
    ensures Add(Poly(t), Poly(rest)) == Poly(t ^ rest) && Add(ZERO, Poly(rest)) == Poly(rest)
  {
  }

  lemma TermIs(c: bv64, t: bv64, rest: bv64)
    ensures Term(c, t, rest) == if c & 1 == 1 then t ^ rest else rest
    ensures c == 0 ==> Shr(c) == 0 && Term(c, t, rest) == rest
    ensures ZERO == Poly(0)
  {
  }

  lemma TermStep(c: bv64, i: nat, t: bv64, rest: bv64)
    requires Even(i) == t && Squares(Poly(Shr(c)), i + 1) == Poly(rest)
    ensures Squares(Poly(c), i) == Poly(Term(c, t, rest))
  {
    hide *;
    SquaresUnfold(Poly(c), i);
    HalfIsShr(c);
    AddTerm(c, t, rest);
    SquaresUnfold(Poly(0), i + 1);
    TermIs(c, t, rest);
  }

  function Four(c: bv64, t0: bv64, t1: bv64, t2: bv64, t3: bv64, rest: bv64): bv64 {
    Pick(c & 1 == 1, t0, Pick(c & 2 == 2, t1, Pick(c & 4 == 4, t2, Pick(c & 8 == 8, t3, rest))))
  }

  lemma FourBits(c: bv64)
    ensures Shr(c) & 1 == 1 <==> c & 2 == 2
    ensures Shr(Shr(c)) & 1 == 1 <==> c & 4 == 4
    ensures Shr(Shr(Shr(c))) & 1 == 1 <==> c & 8 == 8
  {
  }

  lemma FourIs(c: bv64, t0: bv64, t1: bv64, t2: bv64, t3: bv64, rest: bv64)
    ensures Four(c, t0, t1, t2, t3, rest)
            == Term(c, t0, Term(Shr(c), t1, Term(Shr(Shr(c)), t2, Term(Shr(Shr(Shr(c))), t3, rest))))
  {
    FourBits(c);
    hide Shr, Pick;
  }

  lemma FourSteps(c: bv64, i: nat, t0: bv64, t1: bv64, t2: bv64, t3: bv64, rest: bv64)
    requires Even(i) == t0 && Even(i + 1) == t1 && Even(i + 2) == t2 && Even(i + 3) == t3
    requires Squares(Poly(Shr4(c)), i + 4) == Poly(rest)
    ensures Squares(Poly(c), i) == Poly(Four(c, t0, t1, t2, t3, rest))
  {
    hide Term, Squares, Even, Shr, Four;
    FourIs(c, t0, t1, t2, t3, rest);
    var c1, c2, c3 := Shr(c), Shr(Shr(c)), Shr(Shr(Shr(c)));
    TermStep(c3, i + 3, t3, rest);
    TermStep(c2, i + 2, t2, Term(c3, t3, rest));
    TermStep(c1, i + 1, t1, Term(c2, t2, Term(c3, t3, rest)));
    TermStep(c, i, t0, Term(c1, t1, Term(c2, t2, Term(c3, t3, rest))));
  }

  lemma AddSmall(c: Poly, d: Poly)
    requires Small(c) && Small(d)
    ensures Small(Add(c, d)) && Small(ZERO)
  {
  }

  lemma {:induction false} SquaresSmall(c: Poly, i: nat)
    ensures Small(Squares(c, i))
    decreases c.word
  {
    hide *;
    HalfShrinks(c);
    SquaresUnfold(c, i);
    EvenIs(i);
    ZeroIsSmall();
    if c != ZERO {
      SquaresSmall(Half(c), i + 1);
      AddSmall(if Odd(c) then Poly(Even(i)) else ZERO, Squares(Half(c), i + 1));
    }
  }

  lemma ZeroIsSmall()
    ensures Small(ZERO)
  {
  }

  /** The square of a polynomial, reduced. */
  function Square(c: bv64): bv64 {
    Four(c, 0x1, 0x4, 0x10, 0x40,
    Four(c >> 4, 0x100, 0x400, 0x1000, 0x4000,
    Four(c >> 8, 0x1_0000, 0x4_0000, 0x10_0000, 0x40_0000,
    Four(c >> 12, 0x100_0000, 0x400_0000, 0x1000_0000, 0x4000_0000,
    Four(c >> 16, 0x3e_c241, 0xfb_0904, 0x3ec_2410, 0xfb0_9040,
    Four(c >> 20, 0x3ec2_4100, 0xfb09_0400, 0xec67_56c3, 0xb1de_1dcf,
    Four(c >> 24, 0xc705_f3be, 0x1c54_883b, 0x7152_20ec, 0xc576_41f1,
    Four(c >> 28, 0x159a_4107, 0x5669_041c, 0x599a_d231, 0x6655_8a85, 0))))))))
  }

  lemma EvenNext(i: nat, a: bv64, b: bv64)
    requires Even(i) == a && TimesX(TimesX(a)) == b
    ensures Even(i + 1) == b
  {
  }

  lemma Table0()
    ensures Even(0) == 0x1 && Even(1) == 0x4 && Even(2) == 0x10 && Even(3) == 0x40
    ensures Even(4) == 0x100 && Even(5) == 0x400 && Even(6) == 0x1000 && Even(7) == 0x4000
  {
    assert Even(0) == 0x1;
    hide Even;
    EvenNext(0, 0x1, 0x4);
    EvenNext(1, 0x4, 0x10);
    EvenNext(2, 0x10, 0x40);
    EvenNext(3, 0x40, 0x100);
    EvenNext(4, 0x100, 0x400);
    EvenNext(5, 0x400, 0x1000);
    EvenNext(6, 0x1000, 0x4000);
  }

  lemma Table1()
    ensures Even(8) == 0x1_0000 && Even(9) == 0x4_0000 && Even(10) == 0x10_0000 && Even(11) == 0x40_0000
    ensures Even(12) == 0x100_0000 && Even(13) == 0x400_0000 && Even(14) == 0x1000_0000 && Even(15) == 0x4000_0000
  {
    Table0();
    hide Even;
    EvenNext(7, 0x4000, 0x1_0000);
    EvenNext(8, 0x1_0000, 0x4_0000);
    EvenNext(9, 0x4_0000, 0x10_0000);
    EvenNext(10, 0x10_0000, 0x40_0000);
    EvenNext(11, 0x40_0000, 0x100_0000);
    EvenNext(12, 0x100_0000, 0x400_0000);
    EvenNext(13, 0x400_0000, 0x1000_0000);
    EvenNext(14, 0x1000_0000, 0x4000_0000);
  }

  lemma Table2()
    ensures Even(16) == 0x3e_c241 && Even(17) == 0xfb_0904 && Even(18) == 0x3ec_2410 && Even(19) == 0xfb0_9040
    ensures Even(20) == 0x3ec2_4100 && Even(21) == 0xfb09_0400 && Even(22) == 0xec67_56c3 && Even(23) == 0xb1de_1dcf
  {
    Table1();
    hide Even;
    EvenNext(15, 0x4000_0000, 0x3e_c241);
    EvenNext(16, 0x3e_c241, 0xfb_0904);
    EvenNext(17, 0xfb_0904, 0x3ec_2410);
    EvenNext(18, 0x3ec_2410, 0xfb0_9040);
    EvenNext(19, 0xfb0_9040, 0x3ec2_4100);
    EvenNext(20, 0x3ec2_4100, 0xfb09_0400);
    EvenNext(21, 0xfb09_0400, 0xec67_56c3);
    EvenNext(22, 0xec67_56c3, 0xb1de_1dcf);
  }

  lemma Table3()
    ensures Even(24) == 0xc705_f3be && Even(25) == 0x1c54_883b && Even(26) == 0x7152_20ec && Even(27) == 0xc576_41f1
    ensures Even(28) == 0x159a_4107 && Even(29) == 0x5669_041c && Even(30) == 0x599a_d231 && Even(31) == 0x6655_8a85
  {
    Table2();
    hide Even;
    EvenNext(23, 0xb1de_1dcf, 0xc705_f3be);
    EvenNext(24, 0xc705_f3be, 0x1c54_883b);
    EvenNext(25, 0x1c54_883b, 0x7152_20ec);
    EvenNext(26, 0x7152_20ec, 0xc576_41f1);
    EvenNext(27, 0xc576_41f1, 0x159a_4107);
    EvenNext(28, 0x159a_4107, 0x5669_041c);
    EvenNext(29, 0x5669_041c, 0x599a_d231);
    EvenNext(30, 0x599a_d231, 0x6655_8a85);
  }

  lemma Shr4Is(c: bv64)
    ensures Shr4(c) == c >> 4
  {
    calc {
      Shr4(c);
      Shr(Shr(Shr(c >> 1)));
      Shr(Shr(c >> 2));
      Shr(c >> 3);
      c >> 4;
    }
  }

  lemma Fours0(c: bv64, d: bv64, rest: bv64)
    requires Shr4(c) == d && Squares(Poly(d), 4) == Poly(rest)
    ensures Squares(Poly(c), 0) == Poly(Four(c, 0x1, 0x4, 0x10, 0x40, rest))
  {
    Table0();
    hide *;
    FourSteps(c, 0, 0x1, 0x4, 0x10, 0x40, rest);
  }

  lemma Fours4(c: bv64, d: bv64, rest: bv64)
    requires Shr4(c) == d && Squares(Poly(d), 8) == Poly(rest)
    ensures Squares(Poly(c), 4) == Poly(Four(c, 0x100, 0x400, 0x1000, 0x4000, rest))
  {
    Table0();
    hide *;
    FourSteps(c, 4, 0x100, 0x400, 0x1000, 0x4000, rest);
  }

  lemma Fours8(c: bv64, d: bv64, rest: bv64)
    requires Shr4(c) == d && Squares(Poly(d), 12) == Poly(rest)
    ensures Squares(Poly(c), 8) == Poly(Four(c, 0x1_0000, 0x4_0000, 0x10_0000, 0x40_0000, rest))
  {
    Table1();
    hide *;
    FourSteps(c, 8, 0x1_0000, 0x4_0000, 0x10_0000, 0x40_0000, rest);
  }

  lemma Fours12(c: bv64, d: bv64, rest: bv64)
    requires Shr4(c) == d && Squares(Poly(d), 16) == Poly(rest)
    ensures Squares(Poly(c), 12) == Poly(Four(c, 0x100_0000, 0x400_0000, 0x1000_0000, 0x4000_0000, rest))
  {
    Table1();
    hide *;
    FourSteps(c, 12, 0x100_0000, 0x400_0000, 0x1000_0000, 0x4000_0000, rest);
  }

  lemma Fours16(c: bv64, d: bv64, rest: bv64)
    requires Shr4(c) == d && Squares(Poly(d), 20) == Poly(rest)
    ensures Squares(Poly(c), 16) == Poly(Four(c, 0x3e_c241, 0xfb_0904, 0x3ec_2410, 0xfb0_9040, rest))
  {
    Table2();
    hide *;
    FourSteps(c, 16, 0x3e_c241, 0xfb_0904, 0x3ec_2410, 0xfb0_9040, rest);
  }

  lemma Fours20(c: bv64, d: bv64, rest: bv64)
    requires Shr4(c) == d && Squares(Poly(d), 24) == Poly(rest)
    ensures Squares(Poly(c), 20) == Poly(Four(c, 0x3ec2_4100, 0xfb09_0400, 0xec67_56c3, 0xb1de_1dcf, rest))
  {
    Table2();
    hide *;
    FourSteps(c, 20, 0x3ec2_4100, 0xfb09_0400, 0xec67_56c3, 0xb1de_1dcf, rest);
  }

  lemma Fours24(c: bv64, d: bv64, rest: bv64)
    requires Shr4(c) == d && Squares(Poly(d), 28) == Poly(rest)
    ensures Squares(Poly(c), 24) == Poly(Four(c, 0xc705_f3be, 0x1c54_883b, 0x7152_20ec, 0xc576_41f1, rest))
  {
    Table3();
    hide *;
    FourSteps(c, 24, 0xc705_f3be, 0x1c54_883b, 0x7152_20ec, 0xc576_41f1, rest);
  }

  lemma Fours28(c: bv64, d: bv64, rest: bv64)
    requires Shr4(c) == d && Squares(Poly(d), 32) == Poly(rest)
    ensures Squares(Poly(c), 28) == Poly(Four(c, 0x159a_4107, 0x5669_041c, 0x599a_d231, 0x6655_8a85, rest))
  {
    Table3();
    hide *;
    FourSteps(c, 28, 0x159a_4107, 0x5669_041c, 0x599a_d231, 0x6655_8a85, rest);
  }

  lemma Shift0(c: bv64)
    ensures Shr4(c) == c >> 4
  {
    Shr4Is(c);
    hide Shr4;
  }

  lemma Shift4(c: bv64)
    ensures Shr4(c >> 4) == c >> 8
  {
    Shr4Is(c >> 4);
    hide Shr4;
  }

  lemma Shift8(c: bv64)
    ensures Shr4(c >> 8) == c >> 12
  {
    Shr4Is(c >> 8);
    hide Shr4;
  }

  lemma Shift12(c: bv64)
    ensures Shr4(c >> 12) == c >> 16
  {
    Shr4Is(c >> 12);
    hide Shr4;
  }

  lemma Shift16(c: bv64)
    ensures Shr4(c >> 16) == c >> 20
  {
    Shr4Is(c >> 16);
    hide Shr4;
  }

  lemma Shift20(c: bv64)
    ensures Shr4(c >> 20) == c >> 24
  {
    Shr4Is(c >> 20);
    hide Shr4;
  }

  lemma Shift24(c: bv64)
    ensures Shr4(c >> 24) == c >> 28
  {
    Shr4Is(c >> 24);
    hide Shr4;
  }

  lemma Shift28(c: bv64)
    requires c & 0xffff_ffff == c
    ensures Shr4(c >> 28) == 0
  {
    Shr4Is(c >> 28);
    hide Shr4;
  }

  lemma SquareIs(c: bv64)
    requires Small(Poly(c))
    ensures Squares(Poly(c), 0) == Poly(Square(c)) && Small(Poly(Square(c)))
  {
    SquaresSmall(Poly(c), 0);
    SquaresUnfold(Poly(0), 32);
    assert Squares(Poly(0), 32) == Poly(0);
    hide Squares, Four, Shr4;
    Shift28(c);
    Fours28(c >> 28, 0, 0);
    var r7 := Four(c >> 28, 0x159a_4107, 0x5669_041c, 0x599a_d231, 0x6655_8a85, 0);
    Shift24(c);
    Fours24(c >> 24, c >> 28, r7);
    var r6 := Four(c >> 24, 0xc705_f3be, 0x1c54_883b, 0x7152_20ec, 0xc576_41f1, r7);
    Shift20(c);
    Fours20(c >> 20, c >> 24, r6);
    var r5 := Four(c >> 20, 0x3ec2_4100, 0xfb09_0400, 0xec67_56c3, 0xb1de_1dcf, r6);
    Shift16(c);
    Fours16(c >> 16, c >> 20, r5);
    var r4 := Four(c >> 16, 0x3e_c241, 0xfb_0904, 0x3ec_2410, 0xfb0_9040, r5);
    Shift12(c);
    Fours12(c >> 12, c >> 16, r4);
    var r3 := Four(c >> 12, 0x100_0000, 0x400_0000, 0x1000_0000, 0x4000_0000, r4);
    Shift8(c);
    Fours8(c >> 8, c >> 12, r3);
    var r2 := Four(c >> 8, 0x1_0000, 0x4_0000, 0x10_0000, 0x40_0000, r3);
    Shift4(c);
    Fours4(c >> 4, c >> 8, r2);
    var r1 := Four(c >> 4, 0x100, 0x400, 0x1000, 0x4000, r2);
    Shift0(c);
    Fours0(c, c >> 4, r1);
    hide Small;
  }

  /** Twice as many steps is the square. */
  lemma Twice(e: nat, w: bv64)
    requires Is(e, Poly(w)) && Small(Poly(w))
    ensures Is(2 * e, Poly(Square(w))) && Small(Poly(Square(w)))
  {
    hide *;
    IsMeans(e, Poly(w));
    IsMeans(2 * e, Poly(Square(w)));
    FarThen(ONES, e, e);
    ActFar(Poly(w), ONES, e);
    ActTwice(Poly(w), ONES);
    SquaresAct(Poly(w), 0);
    SquareIs(w);
    FarZero(ActSquared(Poly(w), ONES));
  }

  lemma FarZero(a: Vec)
    ensures Far(a, 0) == a
  {
  }

  lemma Doubling(e: nat, w: bv64, v: bv64)
    requires Is(e, Poly(w)) && Small(Poly(w)) && Square(w) == v
    ensures Is(2 * e, Poly(v)) && Small(Poly(v))
  {
    hide *;
    Twice(e, w);
  }

  lemma DoublingAndOne(e: nat, w: bv64, v: bv64)
    requires Is(e, Poly(w)) && Small(Poly(w)) && TimesX(Square(w)) == v
    ensures Is(2 * e + 1, Poly(v)) && Small(Poly(v))
  {
    hide *;
    Twice(e, w);
    OneMore(2 * e, Square(w));
  }

  lemma OneStep()
    ensures Is(1, Poly(2)) && Small(Poly(2))
  {
    One();
    assert TimesX(1) == 2;
    hide Act, Far, Small, TimesX;
    OneMore(0, 1);
  }
}
