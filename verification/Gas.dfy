/**
 Gas accounting (core/state_transition.go, core/gaspool.go, core/state_processor.go): a transaction
 buys its gas from the sender and from the block's pool, runs, and gives back what it did not use.

 The virtual machine is a parameter: any step that creates or destroys no balance and leaves no more
 gas than it got.
 */
module Gas {
  import Sums

  type Addr = nat
  type Bytes = seq<nat>

  const TX_GAS: nat := 21000
  const TX_GAS_CONTRACT_CREATION: nat := 53000
  const TX_DATA_ZERO_GAS: nat := 4
  const TX_DATA_NON_ZERO_GAS: nat := 68

  const TWO_64: nat := 0x1_0000_0000_0000_0000

  /** Arithmetic on uint64. */
  function Wrap(n: int): (r: nat)
    ensures 0 <= n < TWO_64 ==> r == n
  {
    n % TWO_64
  }

  // ---------------------------------------------------------------- world state

  type Balances = map<Addr, nat>

  datatype World = World(balances: Balances, nonces: map<Addr, nat>, refund: nat)

  function Balance(b: Balances, a: Addr): nat {
    if a in b then b[a] else 0
  }

  function Credited(b: Balances, a: Addr, amount: nat): Balances {
    b[a := Balance(b, a) + amount]
  }

  /** The sum of all balances. */
  ghost function Supply(b: Balances): nat {
    Sums.Sum(b)
  }

  lemma SupplyUpdate(b: Balances, a: Addr, amount: nat)
    ensures Supply(b[a := amount]) == Supply(b) - Balance(b, a) + amount
  {
    Sums.SumUpdate(b, a, amount);
  }

  // ---------------------------------------------------------------- fees

  /** Gas at a price. */
  function Fee(gas: nat, price: nat): nat {
    if gas == 0 then 0 else Fee(gas - 1, price) + price
  }

  lemma {:induction false} FeeIsProduct(gas: nat, price: nat)
    ensures Fee(gas, price) == gas * price
  {
    if gas > 0 {
      FeeIsProduct(gas - 1, price);
    }
  }

  lemma {:induction false} FeeSplit(a: nat, b: nat, price: nat)
    ensures Fee(a + b, price) == Fee(a, price) + Fee(b, price)
  {
    if b > 0 {
      FeeSplit(a, b - 1, price);
    }
  }

  // ---------------------------------------------------------------- intrinsic gas

  function NonZeros(data: Bytes): nat {
    if data == [] then 0 else NonZeros(data[..|data| - 1]) + (if data[|data| - 1] != 0 then 1 else 0)
  }

  /** What a message costs before it runs. */
  function Intrinsic(data: Bytes, contractCreation: bool, homestead: bool): nat {
    (if contractCreation && homestead then TX_GAS_CONTRACT_CREATION else TX_GAS)
    + NonZeros(data) * TX_DATA_NON_ZERO_GAS + (|data| - NonZeros(data)) * TX_DATA_ZERO_GAS
  }

  method IntrinsicGas(data: Bytes, contractCreation: bool, homestead: bool) returns (gas: nat)
    ensures gas == Intrinsic(data, contractCreation, homestead)
  {
    gas := if contractCreation && homestead then TX_GAS_CONTRACT_CREATION else TX_GAS;
    if |data| > 0 {
      var nz := 0;
      for i := 0 to |data|
        invariant nz == NonZeros(data[..i]) <= i
      {
        assert data[..i + 1][..i] == data[..i];
        if data[i] != 0 {
          nz := nz + 1;
        }
      }
      assert data[..|data|] == data;
      gas := gas + nz * TX_DATA_NON_ZERO_GAS;
      gas := gas + (|data| - nz) * TX_DATA_ZERO_GAS;
    }
  }

  /** The base cost, and 68 for every byte that is not zero and 4 for every other. */
  lemma {:induction false} IntrinsicCounts(data: Bytes, contractCreation: bool, homestead: bool)
    ensures var nz := |set i | 0 <= i < |data| && data[i] != 0|;
            Intrinsic(data, contractCreation, homestead)
            == (if contractCreation && homestead then 53000 else 21000) + 68 * nz + 4 * (|data| - nz)
  {
    CountsNonZeros(data);
  }

  lemma {:induction false} CountsNonZeros(data: Bytes)
    ensures NonZeros(data) == |set i | 0 <= i < |data| && data[i] != 0|
    decreases |data|
  {
    if data != [] {
      var front, n := data[..|data| - 1], |data| - 1;
      CountsNonZeros(front);
      assert (set i | 0 <= i < |data| && data[i] != 0)
          == (set i | 0 <= i < |front| && front[i] != 0) + (if data[n] != 0 then {n} else {});
    }
  }

  /** Every byte costs, and a byte that is not zero costs more. */
  lemma {:induction false} IntrinsicGrows(data: Bytes, b: nat, contractCreation: bool, homestead: bool)
    ensures Intrinsic(data + [b], contractCreation, homestead)
            == Intrinsic(data, contractCreation, homestead)
               + (if b == 0 then TX_DATA_ZERO_GAS else TX_DATA_NON_ZERO_GAS)
  {
    assert (data + [b])[..|data|] == data;
  }

  // ---------------------------------------------------------------- the block's gas

  class GasPool {
    var available: nat

    constructor (limit: nat)
      ensures available == limit
    {
      available := limit;
    }

    method AddGas(amount: nat)
      modifies this
      ensures available == old(available) + amount
    {
      available := available + amount;
    }

    /** Take gas out, unless there is too little. */
    method SubGas(amount: nat) returns (ok: bool)
      modifies this
      ensures ok == (old(available) >= amount)
      ensures available == if ok then old(available) - amount else old(available)
    {
      ok := available >= amount;
      if ok {
        available := available - amount;
      }
    }
  }

  // ---------------------------------------------------------------- one transaction

  datatype Message = Message(from: Addr, create: bool, price: nat, gas: nat, nonce: nat, checkNonce: bool, data: Bytes)

  /** What the machine leaves: the state with its refund counter, the gas, and how it ended. */
  datatype Outcome = Outcome(world: World, gas: nat, failed: bool, insufficientBalance: bool)

  type Evm = (Message, World, nat) -> Outcome

  ghost predicate Conserves(evm: Evm) {
    forall m, w, g :: Supply(evm(m, w, g).world.balances) == Supply(w.balances) && evm(m, w, g).gas <= g
  }

  datatype Error =
    | NonceTooHigh
    | NonceTooLow
    | OutOfGas
    | InsufficientBalanceForGas
    | GasLimitReached
    | InsufficientBalance

  datatype Result = Done(required: nat, used: nat, failed: bool) | Invalid(error: Error)

  function NonceOf(w: World, a: Addr): nat {
    if a in w.nonces then w.nonces[a] else 0
  }

  /** The state after the sender has paid for all its gas. */
  function Prepaid(w: World, m: Message): World
    requires Fee(m.gas, m.price) <= Balance(w.balances, m.from)
  {
    w.(balances := w.balances[m.from := Balance(w.balances, m.from) - Fee(m.gas, m.price)])
  }

  /** The state in which the message runs: a call has raised the sender's nonce. */
  function Entered(w: World, m: Message): World
    requires Fee(m.gas, m.price) <= Balance(w.balances, m.from)
  {
    var p := Prepaid(w, m);
    if m.create then p else p.(nonces := p.nonces[m.from := Wrap(NonceOf(p, m.from) + 1)])
  }

  function Min(a: nat, b: nat): nat {
    if a < b then a else b
  }

  /** What a message is charged for: all of the refund goes off it if that is at most half, else half. */
  function Charged(required: nat, refund: nat): (used: nat)
    ensures used <= required <= 2 * used
    ensures 2 * refund <= required ==> used + refund == required
    ensures 2 * refund > required ==> used == required - required / 2
  {
    required - Min(required / 2, refund)
  }

  /** The checks before a message is paid for, and the funds and the room it needs. */
  predicate CanPrepay(msg: Message, w: World, available: nat) {
    && (msg.checkNonce ==> msg.nonce == NonceOf(w, msg.from))
    && msg.gas < TWO_64 && Fee(msg.gas, msg.price) <= Balance(w.balances, msg.from) && msg.gas <= available
  }

  /** What a message needs to be run: it can be paid for, and has its intrinsic gas. */
  predicate CanEnter(msg: Message, homestead: bool, w: World, available: nat) {
    CanPrepay(msg, w, available) && Intrinsic(msg.data, msg.create, homestead) <= msg.gas
  }

  /** The outcome of running the message. */
  ghost function Ran(msg: Message, evm: Evm, homestead: bool, w: World): Outcome
    requires Fee(msg.gas, msg.price) <= Balance(w.balances, msg.from)
    requires Intrinsic(msg.data, msg.create, homestead) <= msg.gas
  {
    evm(msg, Entered(w, msg), msg.gas - Intrinsic(msg.data, msg.create, homestead))
  }

  /** The message can be run, and the machine finds the value it is to transfer. */
  ghost predicate Succeeds(msg: Message, evm: Evm, homestead: bool, w: World, available: nat) {
    CanEnter(msg, homestead, w, available) && !Ran(msg, evm, homestead, w).insufficientBalance
  }

  /** The state after settling: the sender has back what it is not charged for, the coinbase has the rest. */
  function Settled(w: World, msg: Message, coinbase: Addr, used: nat): World
    requires used <= msg.gas
  {
    w.(balances := Credited(Credited(w.balances, msg.from, Fee(msg.gas - used, msg.price)),
                            coinbase, Fee(used, msg.price)))
  }

  /** A message that succeeds leaves this: it is charged for the gas it used, less the refund. */
  ghost predicate Moves(msg: Message, evm: Evm, coinbase: Addr, homestead: bool, w: World, available: nat,
                        res: Result, w': World) {
    && Succeeds(msg, evm, homestead, w, available)
    && var o := Ran(msg, evm, homestead, w);
    && o.gas <= msg.gas && res == Done(msg.gas - o.gas, Charged(msg.gas - o.gas, o.world.refund), o.failed)
    && w' == Settled(o.world, msg, coinbase, res.used)
  }

  /**
   How a message that required some gas is settled, in terms of what the machine left: all of the refund is taken off
   if it is at most half, the coinbase is paid for the gas used, the sender has the rest back, and nobody else is
   touched.
   */
  ghost predicate Settles(msg: Message, o: Outcome, coinbase: Addr, required: nat, used: nat, w: World) {
    && required + o.gas == msg.gas && used <= required
    && (if 2 * o.world.refund <= required then used + o.world.refund == required else used == required - required / 2)
    && Paid(msg, o.world.balances, coinbase, used, w.balances)
    && w.nonces == o.world.nonces
  }

  ghost predicate Paid(msg: Message, before: Balances, coinbase: Addr, used: nat, now: Balances)
    requires used <= msg.gas
  {
    && (msg.from != coinbase ==>
          && Balance(now, coinbase) == Balance(before, coinbase) + used * msg.price
          && Balance(now, msg.from) == Balance(before, msg.from) + (msg.gas - used) * msg.price)
    && (msg.from == coinbase ==> Balance(now, msg.from) == Balance(before, msg.from) + msg.gas * msg.price)
    && forall a :: a != msg.from && a != coinbase ==> Balance(now, a) == Balance(before, a)
  }

  lemma SettledPays(w: World, msg: Message, coinbase: Addr, used: nat)
    requires used <= msg.gas
    ensures Paid(msg, w.balances, coinbase, used, Settled(w, msg, coinbase, used).balances) == true
  {
    FeeIsProduct(used, msg.price);
    FeeIsProduct(msg.gas - used, msg.price);
    FeeIsProduct(msg.gas, msg.price);
    FeeSplit(used, msg.gas - used, msg.price);
  }

  /** A message that succeeds is settled. */
  lemma HasMoved(msg: Message, evm: Evm, coinbase: Addr, homestead: bool, w: World, available: nat, o: Outcome,
                 res: Result, w': World)
    requires CanEnter(msg, homestead, w, available) && o == Ran(msg, evm, homestead, w) && !o.insufficientBalance
    requires o.gas <= msg.gas && res == Done(msg.gas - o.gas, Charged(msg.gas - o.gas, o.world.refund), o.failed)
    requires w' == Settled(o.world, msg, coinbase, res.used)
    ensures Moves(msg, evm, coinbase, homestead, w, available, res, w') == true
    ensures res.Done? && res.failed == Ran(msg, evm, homestead, w).failed
    ensures w'.refund == Ran(msg, evm, homestead, w).world.refund
    ensures Settles(msg, Ran(msg, evm, homestead, w), coinbase, res.required, res.used, w') == true
  {
    SettledPays(Ran(msg, evm, homestead, w).world, msg, coinbase, res.used);
  }

  /** The machine starts with the sender's gas paid for, and its nonce raised by one if it calls. */
  lemma EnteredState(w: World, m: Message)
    requires Fee(m.gas, m.price) <= Balance(w.balances, m.from)
    ensures var e := Entered(w, m);
            && Balance(e.balances, m.from) + m.gas * m.price == Balance(w.balances, m.from)
            && (forall a :: a != m.from ==> Balance(e.balances, a) == Balance(w.balances, a))
            && (NonceOf(w, m.from) + 1 < TWO_64 && !m.create ==> NonceOf(e, m.from) == NonceOf(w, m.from) + 1)
            && (forall a :: a != m.from || m.create ==> NonceOf(e, a) == NonceOf(w, a))
            && e.refund == w.refund
  {
    FeeIsProduct(m.gas, m.price);
  }

  /** What a refused message leaves: nothing is given back, so its caller has to go back to a snapshot. */
  ghost function LeftBehind(msg: Message, evm: Evm, homestead: bool, w: World, available: nat): World {
    if CanEnter(msg, homestead, w, available) then Ran(msg, evm, homestead, w).world
    else if CanPrepay(msg, w, available) then Prepaid(w, msg) else w
  }

  /** Why a message is refused: the first check that fails. */
  ghost predicate RefusedFor(msg: Message, evm: Evm, homestead: bool, w: World, available: nat, error: Error) {
    var nonceFits := msg.checkNonce ==> msg.nonce == NonceOf(w, msg.from);
    match error
    case NonceTooHigh => msg.checkNonce && msg.nonce > NonceOf(w, msg.from)
    case NonceTooLow => msg.checkNonce && msg.nonce < NonceOf(w, msg.from)
    case OutOfGas =>
      || (nonceFits && msg.gas >= TWO_64)
      || (CanPrepay(msg, w, available) && Intrinsic(msg.data, msg.create, homestead) > msg.gas)
    case InsufficientBalanceForGas =>
      nonceFits && msg.gas < TWO_64 && msg.gas * msg.price > Balance(w.balances, msg.from)
    case GasLimitReached =>
      && nonceFits && msg.gas < TWO_64 && msg.gas * msg.price <= Balance(w.balances, msg.from)
      && msg.gas > available
    case InsufficientBalance =>
      CanEnter(msg, homestead, w, available) && Ran(msg, evm, homestead, w).insufficientBalance
  }

  ghost predicate Refuses(msg: Message, evm: Evm, homestead: bool, w: World, available: nat, error: Error, w': World,
                          available': nat) {
    && RefusedFor(msg, evm, homestead, w, available, error) && w' == LeftBehind(msg, evm, homestead, w, available)
    && available == available' + if CanPrepay(msg, w, available) then msg.gas else 0
  }

  class StateTransition {
    const gp: GasPool
    const msg: Message
    const evm: Evm
    const coinbase: Addr
    const homestead: bool
    var world: World
    var gas: nat
    var initialGas: nat

    constructor (gp: GasPool, msg: Message, evm: Evm, coinbase: Addr, homestead: bool, world: World)
      ensures this.gp == gp && this.msg == msg && this.evm == evm && this.coinbase == coinbase
      ensures this.homestead == homestead
      ensures this.world == world && gas == 0 && initialGas == 0
    {
      this.gp, this.msg, this.evm, this.coinbase, this.homestead := gp, msg, evm, coinbase, homestead;
      this.world, gas, initialGas := world, 0, 0;
    }

    method UseGas(amount: nat) returns (ok: bool)
      modifies this`gas
      ensures ok == (amount <= old(gas)) && gas == if ok then old(gas) - amount else old(gas)
    {
      ok := amount <= gas;
      if ok {
        gas := gas - amount;
      }
    }

    method AddBalance(a: Addr, amount: nat)
      modifies this`world
      ensures world == old(world).(balances := Credited(old(world).balances, a, amount))
      ensures Supply(world.balances) == Supply(old(world).balances) + amount
    {
      SupplyUpdate(world.balances, a, Balance(world.balances, a) + amount);
      world := world.(balances := Credited(world.balances, a, amount));
    }

    /** Pay for all the gas of the message; on an error nothing changes. */
    method BuyGas() returns (r: Result)
      requires gas == 0
      modifies this, gp
      ensures r.Done? <==> msg.gas < TWO_64 && Fee(msg.gas, msg.price) <= Balance(old(world).balances, msg.from)
                           && msg.gas <= old(gp.available)
      ensures r.Done? ==> world == Prepaid(old(world), msg) && gas == initialGas == msg.gas
                          && gp.available == old(gp.available) - msg.gas
      ensures r.Invalid? ==> world == old(world) && gp.available == old(gp.available)
      ensures r.Invalid? ==>
                r.error == if msg.gas >= TWO_64 then OutOfGas
                           else if Fee(msg.gas, msg.price) > Balance(old(world).balances, msg.from)
                           then InsufficientBalanceForGas else GasLimitReached
    {
      if msg.gas >= TWO_64 {
        return Invalid(OutOfGas);
      }
      var cost := Fee(msg.gas, msg.price);
      if Balance(world.balances, msg.from) < cost {
        return Invalid(InsufficientBalanceForGas);
      }
      var ok := gp.SubGas(msg.gas);
      if !ok {
        return Invalid(GasLimitReached);
      }
      gas := Wrap(gas + msg.gas);
      initialGas := msg.gas;
      world := world.(balances := world.balances[msg.from := Balance(world.balances, msg.from) - cost]);
      r := Done(0, 0, false);
    }

    method PreCheck() returns (r: Result)
      requires gas == 0
      modifies this, gp
      ensures r.Done? <==> CanPrepay(msg, old(world), old(gp.available))
      ensures r.Done? ==> world == Prepaid(old(world), msg) && gas == initialGas == msg.gas
                          && gp.available == old(gp.available) - msg.gas
      ensures r.Invalid? ==> world == old(world) && gp.available == old(gp.available)
      ensures r.Invalid? ==> RefusedFor(msg, evm, homestead, old(world), old(gp.available), r.error)
    {
      FeeIsProduct(msg.gas, msg.price);
      if msg.checkNonce {
        var nonce := NonceOf(world, msg.from);
        if nonce < msg.nonce {
          return Invalid(NonceTooHigh);
        } else if nonce > msg.nonce {
          return Invalid(NonceTooLow);
        }
      }
      r := BuyGas();
    }

    /** Give back the unused gas and the refund, to the sender at the price paid and to the block's pool. */
    method RefundGas()
      requires gas <= initialGas < TWO_64
      modifies this`gas, this`world, gp
      ensures initialGas - gas == Charged(initialGas - old(gas), old(world).refund) && old(gas) <= gas <= initialGas
      ensures world == old(world).(balances := Credited(old(world).balances, msg.from, Fee(gas, msg.price)))
      ensures Supply(world.balances) == Supply(old(world).balances) + Fee(gas, msg.price)
      ensures gp.available == old(gp.available) + gas
    {
      ghost var start, left := world.balances, gas;
      AddBalance(msg.from, Fee(gas, msg.price));
      var refund := Min((initialGas - gas) / 2, world.refund);
      gas := Wrap(gas + refund);
      AddBalance(msg.from, Fee(refund, msg.price));
      FeeSplit(left, refund, msg.price);
      assert Credited(Credited(start, msg.from, Fee(left, msg.price)), msg.from, Fee(refund, msg.price))
          == Credited(start, msg.from, Fee(gas, msg.price));
      gp.AddGas(gas);
    }

    /** A message that is applied moves exactly the gas it is charged for from the sender to the coinbase. */
    method TransitionDb() returns (r: Result)
      requires gas == 0 && Conserves(evm)
      modifies this, gp
      ensures r.Done? <==> Succeeds(msg, evm, homestead, old(world), old(gp.available))
      ensures r.Done? ==> Moves(msg, evm, coinbase, homestead, old(world), old(gp.available), r, world) == true
      ensures r.Done? ==> Supply(world.balances) == Supply(old(world).balances)
      ensures r.Done? ==> gp.available == old(gp.available) - r.used
      ensures r.Done? ==> r.failed == Ran(msg, evm, homestead, old(world)).failed
      ensures r.Done? ==> world.refund == Ran(msg, evm, homestead, old(world)).world.refund
      ensures r.Done? ==>
                Settles(msg, Ran(msg, evm, homestead, old(world)), coinbase, r.required, r.used, world) == true
      ensures r.Invalid? ==> Supply(world.balances) == Supply(old(world).balances)
                             - (if CanPrepay(msg, old(world), old(gp.available)) then Fee(msg.gas, msg.price) else 0)
      ensures r.Invalid? ==>
                Refuses(msg, evm, homestead, old(world), old(gp.available), r.error, world, gp.available) == true
    {
      r := Enter();
      if r.Invalid? {
        assert Refuses(msg, evm, homestead, old(world), old(gp.available), r.error, world, gp.available);
        return;
      }
      var o := evm(msg, world, gas);
      world, gas := o.world, o.gas;
      if o.insufficientBalance {
        assert Refuses(msg, evm, homestead, old(world), old(gp.available), InsufficientBalance, world, gp.available);
        return Invalid(InsufficientBalance);
      }
      var required := initialGas - gas;
      var used := Settle();
      r := Done(required, used, o.failed);
      HasMoved(msg, evm, coinbase, homestead, old(world), old(gp.available), o, r, world);
    }

    /** Check and prepay the message, pay its intrinsic gas and raise the nonce of a calling sender. */
    method Enter() returns (r: Result)
      requires gas == 0
      modifies this, gp
      ensures r.Done? <==> CanEnter(msg, homestead, old(world), old(gp.available))
      ensures r.Done? ==>
                && initialGas == msg.gas && world == Entered(old(world), msg)
                && gas == msg.gas - Intrinsic(msg.data, msg.create, homestead)
                && gp.available == old(gp.available) - msg.gas
                && Supply(world.balances) == Supply(old(world).balances) - Fee(msg.gas, msg.price)
      ensures r.Invalid? ==> Supply(world.balances) == Supply(old(world).balances)
                             - (if CanPrepay(msg, old(world), old(gp.available)) then Fee(msg.gas, msg.price) else 0)
      ensures r.Invalid? ==> RefusedFor(msg, evm, homestead, old(world), old(gp.available), r.error)
      ensures r.Invalid? ==>
                if CanPrepay(msg, old(world), old(gp.available))
                then world == Prepaid(old(world), msg) && gp.available == old(gp.available) - msg.gas
                else world == old(world) && gp.available == old(gp.available)
    {
      r := PreCheck();
      if r.Invalid? {
        return;
      }
      SupplyUpdate(old(world).balances, msg.from, Balance(old(world).balances, msg.from) - Fee(msg.gas, msg.price));
      var intrinsic := IntrinsicGas(msg.data, msg.create, homestead);
      if intrinsic >= TWO_64 {
        return Invalid(OutOfGas);
      }
      var ok := UseGas(intrinsic);
      if !ok {
        return Invalid(OutOfGas);
      }
      if !msg.create {
        world := world.(nonces := world.nonces[msg.from := Wrap(NonceOf(world, msg.from) + 1)]);
      }
    }

    /** Pay back the sender and pay the coinbase for what the message is charged for. */
    method Settle() returns (used: nat)
      requires gas <= initialGas == msg.gas < TWO_64
      modifies this`gas, this`world, gp
      ensures used == Charged(initialGas - old(gas), old(world).refund) && gas == initialGas - used
      ensures world == Settled(old(world), msg, coinbase, used)
      ensures Supply(world.balances) == Supply(old(world).balances) + Fee(initialGas, msg.price)
      ensures gp.available == old(gp.available) + initialGas - used
    {
      RefundGas();
      used := initialGas - gas;
      FeeSplit(gas, used, msg.price);
      AddBalance(coinbase, Fee(used, msg.price));
    }
  }

  /** Apply one message to a state. */
  method ApplyMessage(gp: GasPool, msg: Message, evm: Evm, coinbase: Addr, homestead: bool, w: World)
    returns (res: Result, w': World)
    requires Conserves(evm) == true
    modifies gp
    ensures res.Done? == Succeeds(msg, evm, homestead, w, old(gp.available))
    ensures res.Done? ==> Moves(msg, evm, coinbase, homestead, w, old(gp.available), res, w') == true
    ensures res.Done? ==> Supply(w'.balances) == Supply(w.balances) && gp.available == old(gp.available) - res.used
    ensures res.Done? ==> Settles(msg, Ran(msg, evm, homestead, w), coinbase, res.required, res.used, w') == true
    ensures res.Invalid? ==>
              Refuses(msg, evm, homestead, w, old(gp.available), res.error, w', gp.available) == true
    ensures res.Invalid? ==> Supply(w'.balances) == Supply(w.balances)
                             - (if CanPrepay(msg, w, old(gp.available)) then Fee(msg.gas, msg.price) else 0)
  {
    var st := new StateTransition(gp, msg, evm, coinbase, homestead, w);
    res := st.TransitionDb();
    w' := st.world;
  }

  // ---------------------------------------------------------------- a block

  function Sum(used: seq<nat>): nat {
    if used == [] then 0 else Sum(used[..|used| - 1]) + used[|used| - 1]
  }

  datatype Receipt = Receipt(gasUsed: nat, cumulativeGasUsed: nat, failed: bool)

  /** Every receipt carries the gas of its message and that of all messages up to it. */
  ghost predicate Cumulative(receipts: seq<Receipt>) {
    forall i :: 0 <= i < |receipts| ==> receipts[i].cumulativeGasUsed == Sum(Gases(receipts[..i + 1]))
  }

  function Gases(receipts: seq<Receipt>): (used: seq<nat>)
    ensures |used| == |receipts| && forall i :: 0 <= i < |used| ==> used[i] == receipts[i].gasUsed
  {
    if receipts == [] then [] else Gases(receipts[..|receipts| - 1]) + [receipts[|receipts| - 1].gasUsed]
  }

  datatype Processed = Applied(receipts: seq<Receipt>, usedGas: nat, world: World) | Rejected

  /** A message runs on the state and in the room that the earlier ones of its block left. */
  ghost function Extended(p: Processed, msg: Message, gasLimit: nat, evm: Evm, coinbase: Addr,
                          homestead: bool): Processed {
    if p.Rejected? || p.usedGas > gasLimit || !Succeeds(msg, evm, homestead, p.world, gasLimit - p.usedGas) then
      Rejected
    else
      var o := Ran(msg, evm, homestead, p.world);
      if o.gas > msg.gas then Rejected
      else
        Receipted(p, msg, o, coinbase, Charged(msg.gas - o.gas, o.world.refund))
  }

  /** The next receipt, the gas used with it, and the settled state. */
  ghost function Receipted(p: Processed, msg: Message, o: Outcome, coinbase: Addr, used: nat): Processed
    requires p.Applied? && used <= msg.gas
  {
    Applied(p.receipts + [Receipt(used, p.usedGas + used, o.failed)], p.usedGas + used,
            Settled(o.world, msg, coinbase, used).(refund := 0))
  }

  /** One more message: its receipt follows the others, it is settled on top of them, the refund counter is cleared. */
  ghost predicate Adds(p: Processed, msg: Message, evm: Evm, coinbase: Addr, homestead: bool, r: Processed)
    requires p.Applied? && r.Applied?
    requires Fee(msg.gas, msg.price) <= Balance(p.world.balances, msg.from)
    requires Intrinsic(msg.data, msg.create, homestead) <= msg.gas
  {
    var o, n := Ran(msg, evm, homestead, p.world), |p.receipts|;
    && |r.receipts| == n + 1 && r.receipts[..n] == p.receipts && r.world.refund == 0 && o.gas <= msg.gas
    && r.usedGas == r.receipts[n].cumulativeGasUsed == p.usedGas + r.receipts[n].gasUsed
    && r.receipts[n].failed == o.failed
    && Settles(msg, o, coinbase, msg.gas - o.gas, r.receipts[n].gasUsed, r.world)
  }

  lemma ExtendedAdds(p: Processed, msg: Message, gasLimit: nat, evm: Evm, coinbase: Addr, homestead: bool)
    requires p.Applied? && p.usedGas <= gasLimit && Conserves(evm)
    ensures var r := Extended(p, msg, gasLimit, evm, coinbase, homestead);
            && (r.Applied? <==> Succeeds(msg, evm, homestead, p.world, gasLimit - p.usedGas))
            && (r.Applied? ==> Adds(p, msg, evm, coinbase, homestead, r))
  {
    if Succeeds(msg, evm, homestead, p.world, gasLimit - p.usedGas) {
      var o := Ran(msg, evm, homestead, p.world);
      assert o.gas <= msg.gas - Intrinsic(msg.data, msg.create, homestead);
      SettledPays(o.world, msg, coinbase, Charged(msg.gas - o.gas, o.world.refund));
    }
  }

  ghost function Replayed(msgs: seq<Message>, gasLimit: nat, evm: Evm, coinbase: Addr, homestead: bool,
                          world0: World): Processed {
    if msgs == [] then Applied([], 0, world0)
    else
      Extended(Replayed(msgs[..|msgs| - 1], gasLimit, evm, coinbase, homestead, world0), msgs[|msgs| - 1],
               gasLimit, evm, coinbase, homestead)
  }

  ghost predicate Extends(p: Processed, msg: Message, gasLimit: nat, evm: Evm, coinbase: Addr, homestead: bool,
                          r: Processed) {
    r == Extended(p, msg, gasLimit, evm, coinbase, homestead)
  }

  lemma ExtendedRuns(p: Processed, msg: Message, gasLimit: nat, evm: Evm, coinbase: Addr, homestead: bool, res: Result,
                     w: World, r: Processed)
    requires p.Applied? && p.usedGas <= gasLimit && res.Done? && r.Applied?
    requires Moves(msg, evm, coinbase, homestead, p.world, gasLimit - p.usedGas, res, w) == true
    requires r.usedGas == p.usedGas + res.used && r.receipts == p.receipts + [Receipt(res.used, r.usedGas, res.failed)]
    requires r.world == w.(refund := 0)
    ensures Extends(p, msg, gasLimit, evm, coinbase, homestead, r) == true
  {
    var o, used := Ran(msg, evm, homestead, p.world), res.used;
    assert used == Charged(msg.gas - o.gas, o.world.refund);
    IsReceipted(p, msg, o, coinbase, used, w, r);
    IsExtended(p, msg, gasLimit, evm, coinbase, homestead, o, used, r);
  }

  lemma IsReceipted(p: Processed, msg: Message, o: Outcome, coinbase: Addr, used: nat, w: World, r: Processed)
    requires p.Applied? && r.Applied? && used <= msg.gas && w == Settled(o.world, msg, coinbase, used)
    requires r.usedGas == p.usedGas + used && r.receipts == p.receipts + [Receipt(used, r.usedGas, o.failed)]
    requires r.world == w.(refund := 0)
    ensures r == Receipted(p, msg, o, coinbase, used)
  {
  }

  lemma IsExtended(p: Processed, msg: Message, gasLimit: nat, evm: Evm, coinbase: Addr, homestead: bool, o: Outcome,
                   used: nat, r: Processed)
    requires p.Applied? && p.usedGas <= gasLimit && Succeeds(msg, evm, homestead, p.world, gasLimit - p.usedGas)
    requires o == Ran(msg, evm, homestead, p.world) && o.gas <= msg.gas
    requires used == Charged(msg.gas - o.gas, o.world.refund)
    requires r == Receipted(p, msg, o, coinbase, used)
    ensures r == Extended(p, msg, gasLimit, evm, coinbase, homestead)
  {
  }

  lemma ExtendedFails(p: Processed, msg: Message, gasLimit: nat, evm: Evm, coinbase: Addr, homestead: bool)
    requires p.Applied? && p.usedGas <= gasLimit && !Succeeds(msg, evm, homestead, p.world, gasLimit - p.usedGas)
    ensures Extends(p, msg, gasLimit, evm, coinbase, homestead, Rejected) == true
  {
  }

  lemma ReplayedMore(msgs: seq<Message>, i: nat, gasLimit: nat, evm: Evm, coinbase: Addr, homestead: bool,
                     world0: World)
    requires i < |msgs|
    ensures Replayed(msgs[..i + 1], gasLimit, evm, coinbase, homestead, world0)
         == Extended(Replayed(msgs[..i], gasLimit, evm, coinbase, homestead, world0),
                     msgs[i], gasLimit, evm, coinbase, homestead)
  {
    assert msgs[..i + 1][..i] == msgs[..i];
  }

  /** Once a message fails, the block does. */
  lemma {:induction false} ReplayedFails(msgs: seq<Message>, n: nat, gasLimit: nat, evm: Evm, coinbase: Addr,
                                         homestead: bool, world0: World)
    requires n <= |msgs| && Replayed(msgs[..n], gasLimit, evm, coinbase, homestead, world0) == Rejected
    ensures Replayed(msgs, gasLimit, evm, coinbase, homestead, world0) == Rejected
    decreases |msgs|
  {
    if n == |msgs| {
      assert msgs[..n] == msgs;
    } else {
      assert msgs[..|msgs| - 1][..n] == msgs[..n];
      ReplayedFails(msgs[..|msgs| - 1], n, gasLimit, evm, coinbase, homestead, world0);
    }
  }

  /** The receipts add up, gas that is not used is left in the pool, and no balance was created or destroyed. */
  ghost predicate Balanced(p: Processed, gasLimit: nat, available: nat, supply: nat) {
    p.Applied? ==>
      && p.usedGas + available == gasLimit && p.usedGas == Sum(Gases(p.receipts)) && Cumulative(p.receipts)
      && Supply(p.world.balances) == supply
  }

  /** Apply one message of a block and add its receipt; the state's refund counter is cleared. */
  method ApplyTransaction(gp: GasPool, p: Processed, msg: Message, ghost gasLimit: nat, evm: Evm, coinbase: Addr,
                          homestead: bool, ghost supply: nat)
    returns (r: Processed)
    requires p.Applied? && Balanced(p, gasLimit, gp.available, supply) == true && Conserves(evm) == true
    modifies gp
    ensures Extends(p, msg, gasLimit, evm, coinbase, homestead, r) == true
    ensures Balanced(r, gasLimit, gp.available, supply) == true && (r.Applied? ==> |r.receipts| == |p.receipts| + 1)
    ensures r.Applied? <==> Succeeds(msg, evm, homestead, p.world, old(gp.available))
    ensures r.Applied? ==> Adds(p, msg, evm, coinbase, homestead, r) == true
  {
    BalancedRoom(p, gasLimit, gp.available, supply);
    ExtendedAdds(p, msg, gasLimit, evm, coinbase, homestead);
    var res, w := ApplyMessage(gp, msg, evm, coinbase, homestead, p.world);
    if res.Invalid? {
      ExtendedFails(p, msg, gasLimit, evm, coinbase, homestead);
      return Rejected;
    }
    var usedGas := p.usedGas + res.used;
    r := Applied(p.receipts + [Receipt(res.used, usedGas, res.failed)], usedGas, w.(refund := 0));
    ExtendedRuns(p, msg, gasLimit, evm, coinbase, homestead, res, w, r);
    BalancedMore(p, r, gasLimit, old(gp.available), res.used, res.failed, supply);
  }

  lemma BalancedMore(p: Processed, r: Processed, gasLimit: nat, available: nat, used: nat, failed: bool, supply: nat)
    requires p.Applied? && r.Applied? && Balanced(p, gasLimit, available, supply) == true && used <= available
    requires r.usedGas == p.usedGas + used && r.receipts == p.receipts + [Receipt(used, r.usedGas, failed)]
    requires Supply(r.world.balances) == Supply(p.world.balances)
    ensures Balanced(r, gasLimit, available - used, supply) == true
  {
    ReceiptAdded(p.receipts, Receipt(used, r.usedGas, failed));
  }

  lemma BalancedRoom(p: Processed, gasLimit: nat, available: nat, supply: nat)
    requires p.Applied? && Balanced(p, gasLimit, available, supply) == true
    ensures p.usedGas + available == gasLimit
  {
  }

  /** Apply the messages of a block in order, or reject the block. */
  method Process(msgs: seq<Message>, gasLimit: nat, evm: Evm, coinbase: Addr, homestead: bool, world0: World)
    returns (r: Processed, gp: GasPool)
    requires Conserves(evm) == true
    ensures r == Replayed(msgs, gasLimit, evm, coinbase, homestead, world0)
    ensures Balanced(r, gasLimit, gp.available, Supply(world0.balances)) && (r.Applied? ==> |r.receipts| == |msgs|)
  {
    gp := new GasPool(gasLimit);
    r := Applied([], 0, world0);
    for i := 0 to |msgs|
      invariant fresh(gp) && r.Applied? && |r.receipts| == i
      invariant Balanced(r, gasLimit, gp.available, Supply(world0.balances)) == true
      invariant Replayed(msgs[..i], gasLimit, evm, coinbase, homestead, world0) == r
    {
      ReplayedMore(msgs, i, gasLimit, evm, coinbase, homestead, world0);
      r := ApplyTransaction(gp, r, msgs[i], gasLimit, evm, coinbase, homestead, Supply(world0.balances));
      if r.Rejected? {
        ReplayedFails(msgs, i + 1, gasLimit, evm, coinbase, homestead, world0);
        return;
      }
    }
    assert msgs[..|msgs|] == msgs;
  }

  lemma ReceiptAdded(receipts: seq<Receipt>, r: Receipt)
    requires Cumulative(receipts) && r.cumulativeGasUsed == Sum(Gases(receipts)) + r.gasUsed
    ensures Cumulative(receipts + [r]) && Sum(Gases(receipts + [r])) == Sum(Gases(receipts)) + r.gasUsed
  {
    var rs := receipts + [r];
    assert rs[..|receipts|] == receipts && rs[..|rs|] == rs;
    assert Gases(rs) == Gases(receipts) + [r.gasUsed];
    assert Gases(rs)[..|receipts|] == Gases(receipts);
    forall i | 0 <= i < |receipts|
      ensures rs[i].cumulativeGasUsed == Sum(Gases(rs[..i + 1]))
    {
      assert rs[..i + 1] == receipts[..i + 1];
    }
  }
}
