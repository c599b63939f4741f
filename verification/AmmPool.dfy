/**
 * The constant-product pool: swaps, provider shares and the integer square
 * root (dex/amm.rs).
 */
module AmmPool {
  import opened Common
  import opened MapSum

  type Token = nat
  type Provider = nat

  const FEE_RATE: nat := 30
  const FEE_BASE: nat := 10000

  /** `Panic` stands for a division by zero or a missing provider. */
  datatype DexError = InvalidAmount | InsufficientLiquidity | InsufficientBalance | Panic

  // ----- integer arithmetic -----

  lemma DivBounds(a: nat, b: nat)
    requires b > 0
    ensures a / b * b <= a < (a / b + 1) * b
  {
  }

  lemma MulMono(a: nat, b: nat, c: nat)
    requires a <= b
    ensures a * c <= b * c && c * a <= c * b
  {
  }

  lemma MulLess(a: nat, b: nat, c: nat)
    requires a * c < b * c
    ensures a < b
  {
    if a >= b {
      MulMono(b, a, c);
    }
  }

  lemma PositiveFactors(a: nat, b: nat)
    ensures a * b > 0 <==> a > 0 && b > 0
  {
  }

  // ----- integer square root -----

  ghost predicate IsSqrt(x: nat, z: nat) {
    z * z <= x < (z + 1) * (z + 1)
  }

  lemma SqrtUnique(x: nat, y: nat, z: nat)
    requires IsSqrt(x, y) && IsSqrt(x, z)
    ensures y == z
  {
    if y < z {
      MulMono(y + 1, z, y + 1);
      MulMono(y + 1, z, z);
    } else if z < y {
      MulMono(z + 1, y, z + 1);
      MulMono(z + 1, y, y);
    }
  }

  lemma SquareGap(a: int, b: int)
    ensures (a + b) * (a + b) >= 4 * (a * b)
  {
    assert (a - b) * (a - b) >= 0;
    assert (a + b) * (a + b) == (a - b) * (a - b) + 4 * (a * b);
  }

  lemma HalfSquare(s: nat, t: nat, x: nat)
    requires s <= 2 * t && 4 * x < s * s
    ensures x < t * t
  {
    MulMono(s, 2 * t, s);
    MulMono(s, 2 * t, 2 * t);
    assert (2 * t) * (2 * t) == 4 * (t * t);
  }

  /** A Newton step from above the root never lands below it. */
  lemma NewtonStaysAbove(x: nat, z: nat)
    requires z > 0
    ensures var y := (x / z + z) / 2; x < (y + 1) * (y + 1)
  {
    var q := x / z;
    var y: nat := (q + z) / 2;
    DivBounds(x, z);
    SquareGap(q + 1, z);
    HalfSquare(q + 1 + z, y + 1, x);
  }

  lemma NewtonStops(x: nat, z: nat)
    requires z > 0 && (x / z + z) / 2 >= z
    ensures z * z <= x
  {
    DivBounds(x, z);
    MulMono(z, x / z, z);
  }

  lemma NewtonPositive(x: nat, z: nat)
    requires x > 0 && z > 0
    ensures (x / z + z) / 2 > 0
  {
    if z == 1 {
      assert x / z == x;
    }
  }

  /** `sqrt`: Newton's iteration from above finds the floor of the root. */
  method Sqrt(x: nat) returns (z: nat)
    ensures IsSqrt(x, z)
  {
    if x == 0 {
      return 0;
    }
    z := x;
    var y := (x + 1) / 2;
    assert x / x == 1;
    MulMono(1, x, x);
    while y < z
      invariant z > 0 && y > 0 && y == (x / z + z) / 2
      invariant x < (z + 1) * (z + 1)
      decreases z
    {
      NewtonStaysAbove(x, z);
      z := y;
      NewtonPositive(x, z);
      y := (x / y + y) / 2;
    }
    NewtonStops(x, z);
  }

  // ----- swaps -----

  function AfterFee(amountIn: nat): (r: nat)
    ensures r <= amountIn
  {
    amountIn * (FEE_BASE - FEE_RATE) / FEE_BASE
  }

  function Quotient(a: nat, b: nat): (q: nat)
    requires b > 0
    ensures q * b <= a < (q + 1) * b
  {
    a / b
  }

  function SwapOut(reserveIn: nat, reserveOut: nat, amountIn: nat): nat
    requires reserveIn + AfterFee(amountIn) > 0
  {
    var fee := AfterFee(amountIn);
    Quotient(fee * reserveOut, reserveIn + fee)
  }

  /** A swap never pays out more than there is, even from a lopsided pool. */
  lemma SwapOutWithin(reserveIn: nat, reserveOut: nat, amountIn: nat)
    requires reserveIn + AfterFee(amountIn) > 0
    ensures SwapOut(reserveIn, reserveOut, amountIn) <= reserveOut
  {
    var fee := AfterFee(amountIn);
    var d := reserveIn + fee;
    MulMono(fee, d, reserveOut);
    assert SwapOut(reserveIn, reserveOut, amountIn) * d <= reserveOut * d;
    MulLess(SwapOut(reserveIn, reserveOut, amountIn), reserveOut + 1, d);
  }

  /** A swap pays out less than the reserve and never lowers the product. */
  lemma SwapKeepsProduct(reserveIn: nat, reserveOut: nat, amountIn: nat)
    requires reserveIn > 0 && reserveOut > 0
    ensures var amountOut := SwapOut(reserveIn, reserveOut, amountIn);
            && amountOut < reserveOut
            && (reserveIn + amountIn) * (reserveOut - amountOut) >= reserveIn * reserveOut
  {
    var fee := AfterFee(amountIn);
    var d := reserveIn + fee;
    var amountOut := SwapOut(reserveIn, reserveOut, amountIn);
    assert amountOut * d <= fee * reserveOut;
    assert d * reserveOut == reserveIn * reserveOut + fee * reserveOut;
    PositiveFactors(reserveIn, reserveOut);
    assert amountOut * d < reserveOut * d;
    MulLess(amountOut, reserveOut, d);
    var left: nat := reserveOut - amountOut;
    assert d * left == d * reserveOut - d * amountOut;
    MulMono(d, reserveIn + amountIn, left);
  }

  /** The payout is the largest that does not lower the product of the reserves, with
      only 9970 in 10000 of what comes in counted. */
  lemma PayoutIsLargest(reserveIn: nat, reserveOut: nat, amountIn: nat)
    requires reserveIn + AfterFee(amountIn) > 0
    ensures var net, paid := 9970 * amountIn / 10000, SwapOut(reserveIn, reserveOut, amountIn);
            && AfterFee(amountIn) == net
            && (reserveIn + net) * (reserveOut - paid) >= reserveIn * reserveOut > (reserveIn + net) * (reserveOut - paid - 1)
            && (paid == 0 <==> (reserveIn + net) * (reserveOut - 1) < reserveIn * reserveOut)
  {
    var net, paid := 9970 * amountIn / 10000, SwapOut(reserveIn, reserveOut, amountIn);
    var d := reserveIn + net;
    assert paid * d <= net * reserveOut < (paid + 1) * d;
    PayoutBounds(reserveIn, reserveOut, net, paid);
    PayoutBounds(reserveIn, reserveOut, net, paid + 1);
    PayoutBounds(reserveIn, reserveOut, net, 1);
    if paid >= 1 {
      MulMono(1, paid, d);
    }
  }

  lemma PayoutBounds(reserveIn: nat, reserveOut: nat, net: nat, paid: nat)
    ensures (reserveIn + net) * (reserveOut - paid) >= reserveIn * reserveOut <==> paid * (reserveIn + net) <= net * reserveOut
  {
    var d := reserveIn + net;
    assert d * (reserveOut - paid) == d * reserveOut - d * paid;
    assert d * reserveOut == reserveIn * reserveOut + net * reserveOut;
  }

  // ----- the pool as a value -----

  datatype Pool = Pool(reserveA: nat, reserveB: nat, totalSupply: nat, shares: map<Provider, nat>)

  function Product(p: Pool): nat {
    p.reserveA * p.reserveB
  }

  ghost predicate Sound(p: Pool) {
    Sum(p.shares) == p.totalSupply && (p.totalSupply > 0 ==> p.reserveA > 0 && p.reserveB > 0)
  }

  function Credit(shares: map<Provider, nat>, provider: Provider, amount: nat): map<Provider, nat> {
    shares[provider := (if provider in shares then shares[provider] else 0) + amount]
  }

  /** Shares minted for a deposit into a pool with supply. */
  function Minted(p: Pool, amountA: nat, amountB: nat): nat
    requires p.totalSupply > 0 && p.reserveA > 0 && p.reserveB > 0
  {
    Min(amountA * p.totalSupply / p.reserveA, amountB * p.totalSupply / p.reserveB)
  }

  /** The deposit mints the most shares that each of the two amounts pays for. */
  lemma MintsMost(p: Pool, amountA: nat, amountB: nat)
    requires p.totalSupply > 0 && p.reserveA > 0 && p.reserveB > 0
    ensures var minted := Minted(p, amountA, amountB);
            && minted * p.reserveA <= amountA * p.totalSupply && minted * p.reserveB <= amountB * p.totalSupply
            && ((minted + 1) * p.reserveA > amountA * p.totalSupply || (minted + 1) * p.reserveB > amountB * p.totalSupply)
  {
    var minted := Minted(p, amountA, amountB);
    DivBounds(amountA * p.totalSupply, p.reserveA);
    DivBounds(amountB * p.totalSupply, p.reserveB);
    MulMono(minted, amountA * p.totalSupply / p.reserveA, p.reserveA);
    MulMono(minted, amountB * p.totalSupply / p.reserveB, p.reserveB);
  }

  /** The part of a reserve that `liquidity` shares stand for. */
  function Portion(liquidity: nat, reserve: nat, supply: nat): nat
    requires supply > 0
  {
    liquidity * reserve / supply
  }

  function Deposited(p: Pool, liquidity: nat, provider: Provider): Pool
    requires p.totalSupply > 0
  {
    Pool(p.reserveA + Portion(liquidity, p.reserveA, p.totalSupply),
         p.reserveB + Portion(liquidity, p.reserveB, p.totalSupply),
         p.totalSupply + liquidity, Credit(p.shares, provider, liquidity))
  }

  function SharesOf(p: Pool, provider: Provider): nat {
    if provider in p.shares then p.shares[provider] else 0
  }

  lemma PortionBounds(liquidity: nat, reserve: nat, supply: nat)
    requires supply > 0
    ensures Portion(liquidity, reserve, supply) * supply + liquidity * reserve % supply == liquidity * reserve
    ensures liquidity <= supply ==> Portion(liquidity, reserve, supply) <= reserve
    ensures liquidity < supply && reserve > 0 ==> Portion(liquidity, reserve, supply) < reserve
  {
    DivBounds(liquidity * reserve, supply);
    PortionAtMost(liquidity, reserve, supply);
    PortionBelow(liquidity, reserve, supply);
  }

  lemma PortionAtMost(liquidity: nat, reserve: nat, supply: nat)
    requires supply > 0
    ensures liquidity <= supply ==> Portion(liquidity, reserve, supply) <= reserve
  {
    var a := Portion(liquidity, reserve, supply);
    DivBounds(liquidity * reserve, supply);
    if liquidity <= supply {
      MulMono(liquidity, supply, reserve);
      MulLess(a, reserve + 1, supply);
    }
  }

  lemma PortionBelow(liquidity: nat, reserve: nat, supply: nat)
    requires supply > 0
    ensures liquidity < supply && reserve > 0 ==> Portion(liquidity, reserve, supply) < reserve
  {
    if liquidity < supply && reserve > 0 {
      DivBounds(liquidity * reserve, supply);
      MulMono(liquidity + 1, supply, reserve);
      MulLess(Portion(liquidity, reserve, supply), reserve, supply);
    }
  }

  function Withdrawn(p: Pool, lpTokens: nat, provider: Provider): Pool
    requires p.totalSupply > 0 && lpTokens <= SharesOf(p, provider) && lpTokens <= p.totalSupply && provider in p.shares
  {
    PortionBounds(lpTokens, p.reserveA, p.totalSupply);
    PortionBounds(lpTokens, p.reserveB, p.totalSupply);
    Pool(p.reserveA - Portion(lpTokens, p.reserveA, p.totalSupply),
         p.reserveB - Portion(lpTokens, p.reserveB, p.totalSupply),
         p.totalSupply - lpTokens, p.shares[provider := p.shares[provider] - lpTokens])
  }

  lemma SharesWithinSupply(p: Pool, provider: Provider)
    requires Sound(p)
    ensures SharesOf(p, provider) <= p.totalSupply
  {
    if provider in p.shares {
      SumRemove(p.shares, provider);
    }
  }

  // ----- what deposits and withdrawals keep -----

  lemma DepositSound(p: Pool, liquidity: nat, provider: Provider)
    requires Sound(p) && p.totalSupply > 0
    ensures Sound(Deposited(p, liquidity, provider))
  {
    SumUpdate(p.shares, provider, SharesOf(p, provider) + liquidity);
  }

  lemma WithdrawSound(p: Pool, lpTokens: nat, provider: Provider)
    requires Sound(p) && p.totalSupply > 0 && lpTokens <= SharesOf(p, provider) && provider in p.shares
    ensures lpTokens <= p.totalSupply && Sound(Withdrawn(p, lpTokens, provider))
  {
    SharesWithinSupply(p, provider);
    SumUpdate(p.shares, provider, p.shares[provider] - lpTokens);
    PortionBounds(lpTokens, p.reserveA, p.totalSupply);
    PortionBounds(lpTokens, p.reserveB, p.totalSupply);
  }

  /** A deposit takes in no more than was offered. */
  lemma DepositTakesAtMost(p: Pool, amountA: nat, amountB: nat)
    requires p.totalSupply > 0 && p.reserveA > 0 && p.reserveB > 0
    ensures Portion(Minted(p, amountA, amountB), p.reserveA, p.totalSupply) <= amountA
    ensures Portion(Minted(p, amountA, amountB), p.reserveB, p.totalSupply) <= amountB
  {
    PortionOfMint(Minted(p, amountA, amountB), amountA, p.reserveA, p.totalSupply);
    PortionOfMint(Minted(p, amountA, amountB), amountB, p.reserveB, p.totalSupply);
  }

  lemma PortionOfMint(liquidity: nat, amount: nat, reserve: nat, supply: nat)
    requires supply > 0 && reserve > 0 && liquidity <= amount * supply / reserve
    ensures Portion(liquidity, reserve, supply) <= amount
  {
    DivBounds(amount * supply, reserve);
    MulMono(liquidity, amount * supply / reserve, reserve);
    DivBounds(liquidity * reserve, supply);
    if Portion(liquidity, reserve, supply) > amount {
      MulMono(amount + 1, Portion(liquidity, reserve, supply), supply);
    }
  }

  /** Reserve per share falls in a deposit by exactly the rounding remainder,
      which is below one unit of supply. */
  lemma DepositDilutes(reserve: nat, supply: nat, liquidity: nat)
    requires supply > 0
    ensures reserve * (supply + liquidity) - (reserve + Portion(liquidity, reserve, supply)) * supply ==
            liquidity * reserve % supply < supply
  {
    PortionBounds(liquidity, reserve, supply);
    var a := Portion(liquidity, reserve, supply);
    assert reserve * (supply + liquidity) == reserve * supply + liquidity * reserve;
    assert (reserve + a) * supply == reserve * supply + a * supply;
  }

  /** Reserve per share never falls in a withdrawal. */
  lemma WithdrawConcentrates(reserve: nat, supply: nat, lpTokens: nat)
    requires 0 < supply && lpTokens <= supply
    ensures Portion(lpTokens, reserve, supply) <= reserve
    ensures (reserve - Portion(lpTokens, reserve, supply)) * supply >= reserve * (supply - lpTokens)
  {
    PortionBounds(lpTokens, reserve, supply);
    var a := Portion(lpTokens, reserve, supply);
    assert (reserve - a) * supply == reserve * supply - a * supply;
    assert reserve * (supply - lpTokens) == reserve * supply - lpTokens * reserve;
  }

  /** A deposit followed at once by its withdrawal returns no more than was taken in. */
  lemma DepositWithdraw(p: Pool, liquidity: nat, provider: Provider)
    requires Sound(p) && p.totalSupply > 0
    ensures var q := Deposited(p, liquidity, provider);
            && liquidity <= SharesOf(q, provider) && liquidity <= q.totalSupply && provider in q.shares
            && var r := Withdrawn(q, liquidity, provider);
            && r.reserveA >= p.reserveA && r.reserveB >= p.reserveB
            && r.totalSupply == p.totalSupply && SharesOf(r, provider) == SharesOf(p, provider)
  {
    RoundTrip(liquidity, p.reserveA, p.totalSupply);
    RoundTrip(liquidity, p.reserveB, p.totalSupply);
  }

  /** Of a first deposit its withdrawal at once returns everything exactly when both
      amounts are positive, or nothing was deposited; else nothing is minted and
      nothing returned. */
  lemma FirstDepositWithdraw(p: Pool, tokenA: Token, tokenB: Token, amountA: nat, amountB: nat, provider: Provider)
    requires Sound(p) && p.totalSupply == 0
    ensures var minted := FloorSqrt(amountA * amountB);
            var q := Step(p, tokenA, tokenB, DepositOp(amountA, amountB, provider));
            var r := Step(q, tokenA, tokenB, WithdrawOp(minted, provider));
            && q.reserveA == amountA && q.reserveB == amountB
            && r.totalSupply == 0 && SharesOf(r, provider) == 0
            && (r.reserveA == r.reserveB == 0 <==> amountA * amountB > 0 || amountA == amountB == 0)
            && (amountA * amountB == 0 ==> r == q)
  {
    var minted := FloorSqrt(amountA * amountB);
    SharesWithinSupply(p, provider);
    if amountA * amountB > 0 {
      PositiveFactors(amountA, amountB);
      assert minted > 0;
      WholePortion(amountA, minted);
      WholePortion(amountB, minted);
    } else {
      assert minted == FloorSqrt(0) == 0;
    }
  }

  lemma WholePortion(reserve: nat, supply: nat)
    requires supply > 0
    ensures Portion(supply, reserve, supply) == reserve
  {
    var a := Portion(supply, reserve, supply);
    DivBounds(supply * reserve, supply);
    MulLess(a, reserve + 1, supply);
    MulLess(reserve, a + 1, supply);
  }

  /** No later deposit takes away from the reserves. */
  ghost predicate DepositsKeep(q: Pool, tokenA: Token, tokenB: Token) {
    forall a, b, other ::
      var r := Step(q, tokenA, tokenB, DepositOp(a, b, other));
      r.reserveA >= q.reserveA && r.reserveB >= q.reserveB
  }

  /** A deposit into a pool without supply is kept exactly when both amounts are
      positive, or nothing was deposited: else nothing is minted, and the next
      deposit puts its own amounts in the place of the reserves. */
  lemma FirstDepositKeptIff(p: Pool, tokenA: Token, tokenB: Token, amountA: nat, amountB: nat, provider: Provider)
    requires p.totalSupply == 0
    ensures DepositsKeep(Step(p, tokenA, tokenB, DepositOp(amountA, amountB, provider)), tokenA, tokenB) <==>
            amountA * amountB > 0 || amountA == amountB == 0
  {
    var q := Step(p, tokenA, tokenB, DepositOp(amountA, amountB, provider));
    if amountA * amountB > 0 {
      PositiveFactors(amountA, amountB);
      assert q.totalSupply > 0;
    } else {
      assert q.totalSupply == FloorSqrt(0) == 0;
      var next := Step(q, tokenA, tokenB, DepositOp(0, 0, provider));
      assert next.reserveA == 0 && next.reserveB == 0;
    }
  }

  lemma RoundTrip(liquidity: nat, reserve: nat, supply: nat)
    requires supply > 0
    ensures var taken := Portion(liquidity, reserve, supply);
            Portion(liquidity, reserve + taken, supply + liquidity) <= taken
  {
    var taken := Portion(liquidity, reserve, supply);
    var back := Portion(liquidity, reserve + taken, supply + liquidity);
    DivBounds(liquidity * reserve, supply);
    DivBounds(liquidity * (reserve + taken), supply + liquidity);
    assert liquidity * (reserve + taken) == liquidity * reserve + liquidity * taken;
    assert (taken + 1) * (supply + liquidity) == (taken + 1) * supply + liquidity * taken + liquidity;
    if back > taken {
      MulMono(taken + 1, back, supply + liquidity);
    }
  }

  // ----- runs of operations -----

  ghost function FloorSqrt(x: nat): (z: nat)
    ensures IsSqrt(x, z)
  {
    if x == 0 then 0
    else
      var r := FloorSqrt(x - 1);
      if (r + 1) * (r + 1) <= x then r + 1 else r
  }

  datatype Op =
    | SwapOp(amountIn: nat, tokenIn: Token)
    | DepositOp(amountA: nat, amountB: nat, provider: Provider)
    | WithdrawOp(lpTokens: nat, provider: Provider)

  function SwapInA(p: Pool, amountIn: nat): Pool
    requires p.reserveA + AfterFee(amountIn) > 0
  {
    SwapOutWithin(p.reserveA, p.reserveB, amountIn);
    var amountOut := SwapOut(p.reserveA, p.reserveB, amountIn);
    if amountOut == 0 then p
    else p.(reserveA := p.reserveA + amountIn, reserveB := p.reserveB - amountOut)
  }

  function SwapInB(p: Pool, amountIn: nat): Pool
    requires p.reserveB + AfterFee(amountIn) > 0
  {
    SwapOutWithin(p.reserveB, p.reserveA, amountIn);
    var amountOut := SwapOut(p.reserveB, p.reserveA, amountIn);
    if amountOut == 0 then p
    else p.(reserveB := p.reserveB + amountIn, reserveA := p.reserveA - amountOut)
  }

  /** The pool after an operation; one that fails leaves it as it was. */
  ghost function Step(p: Pool, tokenA: Token, tokenB: Token, op: Op): Pool {
    match op
    case SwapOp(amountIn, tokenIn) =>
      if tokenIn == tokenA then (if p.reserveA + AfterFee(amountIn) > 0 then SwapInA(p, amountIn) else p)
      else if tokenIn == tokenB then (if p.reserveB + AfterFee(amountIn) > 0 then SwapInB(p, amountIn) else p)
      else p
    case DepositOp(amountA, amountB, provider) =>
      if p.totalSupply == 0 then
        var first := FloorSqrt(amountA * amountB);
        Pool(amountA, amountB, first, Credit(p.shares, provider, first))
      else if p.reserveA > 0 && p.reserveB > 0 then Deposited(p, Minted(p, amountA, amountB), provider)
      else p
    case WithdrawOp(lpTokens, provider) =>
      if lpTokens <= SharesOf(p, provider) && provider in p.shares && p.totalSupply > 0 && lpTokens <= p.totalSupply
      then Withdrawn(p, lpTokens, provider) else p
  }

  ghost function Run(p: Pool, tokenA: Token, tokenB: Token, ops: seq<Op>): Pool
    decreases |ops|
  {
    if ops == [] then p else Run(Step(p, tokenA, tokenB, ops[0]), tokenA, tokenB, ops[1..])
  }

  /** A swap keeps reserves positive and shares untouched, and never lowers the product. */
  lemma SwapStep(p: Pool, tokenA: Token, tokenB: Token, op: Op)
    requires op.SwapOp? && p.reserveA > 0 && p.reserveB > 0
    ensures var q := Step(p, tokenA, tokenB, op);
            && q.reserveA > 0 && q.reserveB > 0 && Product(q) >= Product(p)
            && q.totalSupply == p.totalSupply && q.shares == p.shares
  {
    hide SwapOut, AfterFee;
    if op.tokenIn == tokenA {
      SwapKeepsProduct(p.reserveA, p.reserveB, op.amountIn);
    } else {
      SwapKeepsProduct(p.reserveB, p.reserveA, op.amountIn);
    }
  }

  lemma FirstDepositSound(p: Pool, amountA: nat, amountB: nat, provider: Provider)
    requires Sound(p) && p.totalSupply == 0
    ensures var first := FloorSqrt(amountA * amountB);
            Sound(Pool(amountA, amountB, first, Credit(p.shares, provider, first)))
  {
    var first := FloorSqrt(amountA * amountB);
    SharesWithinSupply(p, provider);
    SumUpdate(p.shares, provider, SharesOf(p, provider) + first);
    if first > 0 {
      MulMono(1, first, first);
      PositiveFactors(amountA, amountB);
    }
  }

  lemma StepSound(p: Pool, tokenA: Token, tokenB: Token, op: Op)
    requires Sound(p)
    ensures Sound(Step(p, tokenA, tokenB, op))
  {
    match op
    case SwapOp(amountIn, tokenIn) =>
      if p.totalSupply > 0 {
        SwapStep(p, tokenA, tokenB, op);
      }
    case DepositOp(amountA, amountB, provider) =>
      if p.totalSupply == 0 {
        FirstDepositSound(p, amountA, amountB, provider);
      } else {
        DepositSound(p, Minted(p, amountA, amountB), provider);
      }
    case WithdrawOp(lpTokens, provider) =>
      if lpTokens <= SharesOf(p, provider) && provider in p.shares && p.totalSupply > 0 {
        WithdrawSound(p, lpTokens, provider);
      }
  }

  /** In every run the providers' shares add up to the supply, and a positive
      supply stands for positive reserves. */
  lemma {:induction false} RunSound(p: Pool, tokenA: Token, tokenB: Token, ops: seq<Op>)
    requires Sound(p)
    ensures Sound(Run(p, tokenA, tokenB, ops))
    decreases |ops|
  {
    if ops != [] {
      StepSound(p, tokenA, tokenB, ops[0]);
      RunSound(Step(p, tokenA, tokenB, ops[0]), tokenA, tokenB, ops[1..]);
    }
  }

  /** Over any run of swaps neither reserve reaches zero and the product never falls. */
  lemma {:induction false} SwapsKeepProduct(p: Pool, tokenA: Token, tokenB: Token, ops: seq<Op>)
    requires p.reserveA > 0 && p.reserveB > 0 && forall op | op in ops :: op.SwapOp?
    ensures var q := Run(p, tokenA, tokenB, ops);
            q.reserveA > 0 && q.reserveB > 0 && Product(q) >= Product(p)
    decreases |ops|
  {
    if ops != [] {
      assert ops[0] in ops;
      SwapStep(p, tokenA, tokenB, ops[0]);
      SwapsKeepProduct(Step(p, tokenA, tokenB, ops[0]), tokenA, tokenB, ops[1..]);
    }
  }

  /** No cycle of swaps profits: when one reserve is back where it started, or
      lower, the other is no lower than it started. */
  lemma NoSwapCycleProfits(p: Pool, tokenA: Token, tokenB: Token, ops: seq<Op>)
    requires p.reserveA > 0 && p.reserveB > 0 && forall op | op in ops :: op.SwapOp?
    ensures var q := Run(p, tokenA, tokenB, ops);
            && (q.reserveA <= p.reserveA ==> q.reserveB >= p.reserveB)
            && (q.reserveB <= p.reserveB ==> q.reserveA >= p.reserveA)
  {
    SwapsKeepProduct(p, tokenA, tokenB, ops);
    var q := Run(p, tokenA, tokenB, ops);
    OneSideUp(p.reserveA, p.reserveB, q.reserveA, q.reserveB);
    OneSideUp(p.reserveB, p.reserveA, q.reserveB, q.reserveA);
  }

  lemma OneSideUp(a: nat, b: nat, a': nat, b': nat)
    requires a > 0 && a' * b' >= a * b
    ensures a' <= a ==> b' >= b
  {
    if a' <= a {
      MulMono(a', a, b');
      if b' < b {
        MulMono(b' + 1, b, a);
      }
    }
  }

  // ----- the value of a share -----

  /** Product per squared supply, the value of a share, is no lower in `q` than in `p`. */
  ghost predicate ShareKeeps(p: Pool, q: Pool) {
    Product(q) * (p.totalSupply * p.totalSupply) >= Product(p) * (q.totalSupply * q.totalSupply)
  }

  lemma ShareKeepsTransitive(p: Pool, q: Pool, r: Pool)
    requires ShareKeeps(p, q) && ShareKeeps(q, r) && r.totalSupply <= q.totalSupply
    ensures ShareKeeps(p, r)
  {
    var x, y, z := Product(p), Product(q), Product(r);
    var a, b, c := p.totalSupply * p.totalSupply, q.totalSupply * q.totalSupply, r.totalSupply * r.totalSupply;
    Cancel(x, y, z, a, b, c);
    if q.totalSupply == 0 {
      assert c == 0;
    } else {
      PositiveFactors(q.totalSupply, q.totalSupply);
    }
  }

  lemma Cancel(x: nat, y: nat, z: nat, a: nat, b: nat, c: nat)
    requires y * a >= x * b && z * b >= y * c
    ensures b > 0 ==> z * a >= x * c
  {
    if b > 0 && z * a < x * c {
      MulMono(x * b, y * a, c);
      MulMono(y * c, z * b, a);
      assert (x * c) * b == (x * b) * c;
      assert (y * a) * c == (y * c) * a;
      assert (z * b) * a == (z * a) * b;
      MulMono(z * a + 1, x * c, b);
    }
  }

  lemma WithdrawKeepsShare(p: Pool, lpTokens: nat, provider: Provider)
    requires Sound(p) && p.totalSupply > 0 && lpTokens <= SharesOf(p, provider) && provider in p.shares
    ensures lpTokens <= p.totalSupply && ShareKeeps(p, Withdrawn(p, lpTokens, provider))
  {
    SharesWithinSupply(p, provider);
    var q := Withdrawn(p, lpTokens, provider);
    WithdrawConcentrates(p.reserveA, p.totalSupply, lpTokens);
    WithdrawConcentrates(p.reserveB, p.totalSupply, lpTokens);
    ProductOfBounds(q.reserveA, q.reserveB, p.totalSupply, p.reserveA, p.reserveB, q.totalSupply);
  }

  lemma ProductOfBounds(a: nat, b: nat, s: nat, c: nat, d: nat, t: nat)
    requires a * s >= c * t && b * s >= d * t
    ensures (a * b) * (s * s) >= (c * d) * (t * t)
  {
    MulMono(c * t, a * s, d * t);
    MulMono(d * t, b * s, a * s);
    assert (a * s) * (b * s) == (a * b) * (s * s);
    assert (c * t) * (d * t) == (c * d) * (t * t);
  }

  lemma StepKeepsShare(p: Pool, tokenA: Token, tokenB: Token, op: Op)
    requires Sound(p) && !op.DepositOp?
    ensures ShareKeeps(p, Step(p, tokenA, tokenB, op)) && Step(p, tokenA, tokenB, op).totalSupply <= p.totalSupply
  {
    hide SwapOut, AfterFee, Portion;
    if p.totalSupply > 0 {
      match op {
        case SwapOp(_, _) =>
          SwapStep(p, tokenA, tokenB, op);
          var q := Step(p, tokenA, tokenB, op);
          MulMono(Product(p), Product(q), p.totalSupply * p.totalSupply);
        case WithdrawOp(lpTokens, provider) =>
          if lpTokens <= SharesOf(p, provider) && provider in p.shares {
            WithdrawKeepsShare(p, lpTokens, provider);
          }
      }
    }
  }

  /** Over any run of swaps and withdrawals the value of a share never falls. */
  lemma {:induction false} ShareValueKept(p: Pool, tokenA: Token, tokenB: Token, ops: seq<Op>)
    requires Sound(p) && forall op | op in ops :: !op.DepositOp?
    ensures ShareKeeps(p, Run(p, tokenA, tokenB, ops))
    ensures Run(p, tokenA, tokenB, ops).totalSupply <= p.totalSupply
    decreases |ops|
  {
    hide ShareKeeps, Sound, Step;
    if ops == [] {
      ShareKeepsItself(p);
    } else {
      assert ops[0] in ops;
      var q := Step(p, tokenA, tokenB, ops[0]);
      StepSound(p, tokenA, tokenB, ops[0]);
      StepKeepsShare(p, tokenA, tokenB, ops[0]);
      ShareValueKept(q, tokenA, tokenB, ops[1..]);
      ShareKeepsTransitive(p, q, Run(q, tokenA, tokenB, ops[1..]));
    }
  }

  lemma ShareKeepsItself(p: Pool)
    ensures ShareKeeps(p, p)
  {
  }

  // ----- the pool object -----

  class AmmPool {
    const tokenA: Token
    const tokenB: Token
    const feeRate: nat
    var reserveA: nat
    var reserveB: nat
    var totalSupply: nat
    var liquidityProviders: map<Provider, nat>

    ghost predicate Valid()
      reads this
    {
      Sound(Abs()) && feeRate == FEE_RATE
    }

    ghost function Abs(): Pool
      reads this
    {
      Pool(reserveA, reserveB, totalSupply, liquidityProviders)
    }

    constructor (tokenA: Token, tokenB: Token)
      ensures Valid() && Abs() == Pool(0, 0, 0, map[])
      ensures this.tokenA == tokenA && this.tokenB == tokenB
    {
      this.tokenA, this.tokenB := tokenA, tokenB;
      feeRate := FEE_RATE;
      reserveA, reserveB, totalSupply, liquidityProviders := 0, 0, 0, map[];
    }

    /** `add_liquidity` */
    method AddLiquidity(amountA: nat, amountB: nat, provider: Provider) returns (lpTokens: nat)
      requires Valid()
      modifies this
      ensures Valid() && Abs() == Step(old(Abs()), tokenA, tokenB, DepositOp(amountA, amountB, provider))
      ensures SharesOf(Abs(), provider) == SharesOf(old(Abs()), provider) + lpTokens
      ensures totalSupply == old(totalSupply) + lpTokens
      ensures forall other | other != provider :: SharesOf(Abs(), other) == SharesOf(old(Abs()), other)
      ensures old(totalSupply) == 0 ==>
                && reserveA == amountA && reserveB == amountB
                && lpTokens * lpTokens <= amountA * amountB < (lpTokens + 1) * (lpTokens + 1)
      ensures old(totalSupply) > 0 ==>
                && lpTokens * old(reserveA) <= amountA * old(totalSupply) && lpTokens * old(reserveB) <= amountB * old(totalSupply)
                && ((lpTokens + 1) * old(reserveA) > amountA * old(totalSupply) ||
                    (lpTokens + 1) * old(reserveB) > amountB * old(totalSupply))
      ensures old(totalSupply) > 0 ==>
                && (reserveA - old(reserveA)) * old(totalSupply) <= lpTokens * old(reserveA) <
                     (reserveA - old(reserveA) + 1) * old(totalSupply)
                && (reserveB - old(reserveB)) * old(totalSupply) <= lpTokens * old(reserveB) <
                     (reserveB - old(reserveB) + 1) * old(totalSupply)
    {
      StepSound(Abs(), tokenA, tokenB, DepositOp(amountA, amountB, provider));
      if totalSupply == 0 {
        var initialLiquidity := Sqrt(amountA * amountB);
        SqrtUnique(amountA * amountB, initialLiquidity, FloorSqrt(amountA * amountB));
        reserveA := amountA;
        reserveB := amountB;
        totalSupply := initialLiquidity;
        lpTokens := initialLiquidity;
      } else {
        var liquidityA := amountA * totalSupply / reserveA;
        var liquidityB := amountB * totalSupply / reserveB;
        var liquidity := Min(liquidityA, liquidityB);
        MintsMost(Abs(), amountA, amountB);
        DivBounds(liquidity * reserveA, totalSupply);
        DivBounds(liquidity * reserveB, totalSupply);
        var actualA := Portion(liquidity, reserveA, totalSupply);
        var actualB := Portion(liquidity, reserveB, totalSupply);
        reserveA := reserveA + actualA;
        reserveB := reserveB + actualB;
        totalSupply := totalSupply + liquidity;
        lpTokens := liquidity;
      }
      liquidityProviders := Credit(liquidityProviders, provider, lpTokens);
    }

    /** `remove_liquidity` */
    method RemoveLiquidity(lpTokens: nat, provider: Provider) returns (r: Result<(nat, nat), DexError>)
      requires Valid()
      modifies this
      ensures Valid() && Abs() == Step(old(Abs()), tokenA, tokenB, WithdrawOp(lpTokens, provider))
      ensures r.Ok? ==> r.value == (old(reserveA) - reserveA, old(reserveB) - reserveB)
      ensures r.Err? ==> Abs() == old(Abs())
      ensures r == Err(InsufficientBalance) <==> lpTokens > SharesOf(old(Abs()), provider)
      ensures r == Err(Panic) <==> lpTokens == 0 && (old(totalSupply) == 0 || provider !in old(liquidityProviders))
      ensures r.Err? ==> r.error in {InsufficientBalance, Panic}
      ensures r.Ok? ==>
                && r.value.0 * old(totalSupply) <= lpTokens * old(reserveA) < (r.value.0 + 1) * old(totalSupply)
                && r.value.1 * old(totalSupply) <= lpTokens * old(reserveB) < (r.value.1 + 1) * old(totalSupply)
                && totalSupply == old(totalSupply) - lpTokens
                && SharesOf(Abs(), provider) == SharesOf(old(Abs()), provider) - lpTokens
                && forall other | other != provider :: SharesOf(Abs(), other) == SharesOf(old(Abs()), other)
    {
      StepSound(Abs(), tokenA, tokenB, WithdrawOp(lpTokens, provider));
      var balance := if provider in liquidityProviders then liquidityProviders[provider] else 0;
      if balance < lpTokens {
        return Err(InsufficientBalance);
      }
      SharesWithinSupply(Abs(), provider);
      if totalSupply == 0 || provider !in liquidityProviders {
        return Err(Panic);
      }
      PortionBounds(lpTokens, reserveA, totalSupply);
      PortionBounds(lpTokens, reserveB, totalSupply);
      DivBounds(lpTokens * reserveA, totalSupply);
      DivBounds(lpTokens * reserveB, totalSupply);
      var amountA := Portion(lpTokens, reserveA, totalSupply);
      var amountB := Portion(lpTokens, reserveB, totalSupply);
      reserveA := reserveA - amountA;
      reserveB := reserveB - amountB;
      totalSupply := totalSupply - lpTokens;
      liquidityProviders := liquidityProviders[provider := liquidityProviders[provider] - lpTokens];
      return Ok((amountA, amountB));
    }

    /** `swap` */
    method Swap(amountIn: nat, tokenIn: Token) returns (r: Result<nat, DexError>)
      requires Valid()
      modifies this
      ensures Valid() && Abs() == Step(old(Abs()), tokenA, tokenB, SwapOp(amountIn, tokenIn))
      ensures r.Err? ==> Abs() == old(Abs())
      ensures tokenIn !in {tokenA, tokenB} <==> r == Err(InvalidAmount)
      ensures r.Err? ==> r.error in {InvalidAmount, InsufficientLiquidity, Panic}
      ensures tokenIn in {tokenA, tokenB} ==>
                var net := 9970 * amountIn / 10000;
                var reserveIn, reserveOut :=
                  if tokenIn == tokenA then old(reserveA) else old(reserveB), if tokenIn == tokenA then old(reserveB) else old(reserveA);
                && (r == Err(Panic) <==> reserveIn + net == 0)
                && (r == Err(InsufficientLiquidity) <==>
                      reserveIn + net > 0 && (reserveIn + net) * (reserveOut - 1) < reserveIn * reserveOut)
                && (r.Ok? ==>
                      (reserveIn + net) * (reserveOut - r.value) >= reserveIn * reserveOut >
                      (reserveIn + net) * (reserveOut - r.value - 1))
      ensures r.Ok? ==> r.value > 0
      ensures r.Ok? && tokenIn == tokenA ==> reserveA == old(reserveA) + amountIn && reserveB == old(reserveB) - r.value
      ensures r.Ok? && tokenIn != tokenA ==> reserveB == old(reserveB) + amountIn && reserveA == old(reserveA) - r.value
    {
      StepSound(Abs(), tokenA, tokenB, SwapOp(amountIn, tokenIn));
      var reserveIn, reserveOut;
      if tokenIn == tokenA {
        reserveIn, reserveOut := reserveA, reserveB;
      } else if tokenIn == tokenB {
        reserveIn, reserveOut := reserveB, reserveA;
      } else {
        return Err(InvalidAmount);
      }
      var amountInWithFee := amountIn * (FEE_BASE - feeRate) / FEE_BASE;
      var numerator := amountInWithFee * reserveOut;
      var denominator := reserveIn + amountInWithFee;
      if denominator == 0 {
        return Err(Panic);
      }
      var amountOut := numerator / denominator;
      assert amountOut == SwapOut(reserveIn, reserveOut, amountIn);
      SwapOutWithin(reserveIn, reserveOut, amountIn);
      PayoutIsLargest(reserveIn, reserveOut, amountIn);
      if amountOut == 0 {
        return Err(InsufficientLiquidity);
      }
      if tokenIn == tokenA {
        reserveA := reserveA + amountIn;
        reserveB := reserveB - amountOut;
      } else {
        reserveB := reserveB + amountIn;
        reserveA := reserveA - amountOut;
      }
      return Ok(amountOut);
    }
  }
}
