/** The gas and nonce arithmetic of `ApplyMessageWithConfig`, with the remote
    state calls as inputs: every reply (leftover gas, VM error, refund counter,
    logs, transport errors) is an arbitrary value supplied by the caller. */
module GasAccounting {
  import opened Common
  import opened State

  /** Refund cap divisor before London (`params.RefundQuotient`). */
  const REFUND_QUOTIENT: nat := 2
  /** Refund cap divisor from London on (`params.RefundQuotientEIP3529`, EIP-3529). */
  const REFUND_QUOTIENT_EIP3529: nat := 5
  /** Largest init code accepted under Shanghai (`params.MaxInitCodeSize`, EIP-3860). */
  const MAX_INIT_CODE_SIZE: nat := 49152
  /** `LegacyDec` fixed point: a decimal is an integer numerator over 10^18. */
  const DEC_ONE: nat := 1_000_000_000_000_000_000
  const INT64_MIN: int := -0x8000_0000_0000_0000

  /** The message fields the arithmetic reads. */
  datatype Message = Message(
    from: Address,
    to: Option<Address>,
    gasLimit: uint64,
    nonce: uint64,
    data: seq<uint8>,
    value: nat)

  /** Governance switches, fork rules and the fee-market multiplier (a
      `LegacyDec` numerator over 10^18; `None` for a nil decimal). */
  datatype Config = Config(
    enableCreate: bool,
    enableCall: bool,
    isLondon: bool,
    isShanghai: bool,
    minGasMultiplier: Option<int>)

  /** The replies of the remote executor and the keeper's intrinsic-gas
      computation, as given. */
  datatype Replies = Replies(
    clientErr: Option<Error>,
    prepareTxErr: Option<Error>,
    intrinsicGas: Result<uint64, Error>,
    prepareErr: Option<Error>,
    setNonceErr: Option<Error>,
    execRet: seq<uint8>,
    execLeftover: uint64,
    execErr: Option<Error>,
    refund: Result<uint64, Error>,
    commitErr: Option<Error>,
    logs: Result<seq<Log>, Error>)

  /** The state calls issued to the remote executor, in order. */
  datatype Request =
    | PrepareTxReq
    | PrepareReq
    | SetNonceReq(addr: Address, nonce: uint64)
    | CreateReq(caller: Address, code: seq<uint8>, gas: uint64, value: nat)
    | CallReq(caller: Address, to: Address, input: seq<uint8>, gas: uint64, value: nat)
    | GetRefundReq
    | CommitReq
    | GetLogsReq

  /** Why a message is rejected. */
  datatype Failure =
    | CreateDisabled
    | CallDisabled
    | ClientFailed(err: Error)
    | PrepareTxFailed(err: Error)
    | IntrinsicGasFailed(err: Error)
    | IntrinsicGasTooLow
    | MaxInitCodeSizeExceeded(size: nat)
    | RemoteFailed(err: Error)
    | GasOverflow
    | CommitFailed(err: Error)

  datatype Response = Response(gasUsed: uint64, vmError: string, ret: seq<uint8>, logs: seq<Log>)

  /** What the call did: failed with an error, panicked (the final gas did not
      fit a `uint64`), or produced a response; `leftover` is the value handed
      to the tracer at the end. */
  datatype Outcome =
    | Failed(failure: Failure, requests: seq<Request>)
    | Panicked(requests: seq<Request>)
    | Applied(response: Response, requests: seq<Request>, leftover: uint64)

  // ---------------------------------------------------------------------------
  // Arithmetic pieces

  /** The refund quotient of the fork. */
  function RefundQuotient(isLondon: bool): (q: nat)
    ensures q == REFUND_QUOTIENT_EIP3529 <==> isLondon
    ensures q == REFUND_QUOTIENT <==> !isLondon
  {
    if isLondon then REFUND_QUOTIENT_EIP3529 else REFUND_QUOTIENT
  }

  /** `GasToRefund`: the refund counter, capped at `used / quotient`. */
  function GasToRefund(refund: uint64, used: uint64, quotient: nat): (r: uint64)
    requires quotient > 0
    ensures r <= refund && r <= used / quotient
    ensures r == refund || r == used / quotient
  {
    Min(refund, used / quotient)
  }

  /** Go's `int64(x)` on a `uint64`: the two's-complement reading. */
  function ToInt64(x: uint64): (r: int)
    ensures INT64_MIN <= r < -INT64_MIN
    ensures x < -INT64_MIN <==> r == x
  {
    if x < -INT64_MIN then x else x - UINT64_MODULUS
  }

  /** The cast keeps the bit pattern: equal modulo 2^64. */
  lemma ToInt64Wraps(x: uint64)
    ensures ToInt64(x) % UINT64_MODULUS == x % UINT64_MODULUS
    ensures x >= -INT64_MIN ==> ToInt64(x) < 0
  {
    if x >= -INT64_MIN {
      assert ToInt64(x) + UINT64_MODULUS == x;
    }
  }

  /** `TruncateInt` of a decimal numerator: rounds toward zero. */
  function TruncateDec(x: int): (r: int)
    ensures x >= 0 ==> r * DEC_ONE <= x < (r + 1) * DEC_ONE
    ensures x < 0 ==> (r - 1) * DEC_ONE < x <= r * DEC_ONE
  {
    if x >= 0 then x / DEC_ONE else -((-x) / DEC_ONE)
  }

  /** `max(gasLimit · multiplier, temporaryGasUsed)`, both read through
      `int64`, truncated and converted to `uint64`; `None` where `Uint64`
      panics (a negative or too large value). */
  function FinalGasUsed(gasLimit: uint64, temporary: uint64, multiplier: Option<int>): (r: Option<uint64>)
    ensures temporary < -INT64_MIN && r.Some? ==> r.value >= temporary
    ensures multiplier.None? || multiplier.value == 0 ==>
      r == Some(if temporary < -INT64_MIN then temporary else 0)
  {
    var m := if multiplier.Some? then multiplier.value else 0;
    var minimum := ToInt64(gasLimit) * m;
    var used := TruncateDec(Max(minimum, ToInt64(temporary) * DEC_ONE));
    if 0 <= used < UINT64_MODULUS then Some(used) else None
  }

  /** The gating of `ApplyMessageWithConfig` on the governance switches. */
  function Gate(msg: Message, cfg: Config): (r: Option<Failure>)
    ensures r == Some(CreateDisabled) <==> msg.to.None? && !cfg.enableCreate
    ensures r == Some(CallDisabled) <==> msg.to.Some? && !cfg.enableCall
    ensures r.None? <==> (if msg.to.None? then cfg.enableCreate else cfg.enableCall)
  {
    if !cfg.enableCreate && msg.to.None? then Some(CreateDisabled)
    else if !cfg.enableCall && msg.to.Some? then Some(CallDisabled)
    else None
  }

  // ---------------------------------------------------------------------------
  // The message application

  /** The execution phase: nonce takeover and `Create` for a creation, `Call`
      otherwise. Returns the requests issued and, unless the first `SetNonce`
      failed, the execution's leftover gas. */
  function Execute(msg: Message, gas: uint64, replies: Replies): (r: (seq<Request>, Option<Error>))
    ensures r.1.Some? <==> msg.to.None? && replies.setNonceErr.Some?
    ensures r.1.Some? ==> r.1 == replies.setNonceErr && r.0 == [SetNonceReq(msg.from, msg.nonce)]
    ensures msg.to.None? ==> |r.0| >= 1 && r.0[0] == SetNonceReq(msg.from, msg.nonce)
    ensures msg.to.None? && r.1.None? ==>
      |r.0| == 3 && r.0[1].CreateReq? && r.0[1].code == msg.data
      && r.0[2] == SetNonceReq(msg.from, AddUint64(msg.nonce, 1))
    ensures msg.to.Some? ==> |r.0| == 1 && r.0[0].CallReq? && r.0[0].to == msg.to.value && r.0[0].input == msg.data
    ensures forall i :: 0 <= i < |r.0| && (r.0[i].CreateReq? || r.0[i].CallReq?) ==>
      r.0[i].gas == gas && r.0[i].caller == msg.from && r.0[i].value == msg.value
  {
    if msg.to.None? then
      if replies.setNonceErr.Some? then ([SetNonceReq(msg.from, msg.nonce)], replies.setNonceErr)
      else
        ([SetNonceReq(msg.from, msg.nonce),
          CreateReq(msg.from, msg.data, gas, msg.value),
          SetNonceReq(msg.from, AddUint64(msg.nonce, 1))], None)
    else
      ([CallReq(msg.from, msg.to.value, msg.data, gas, msg.value)], None)
  }

  /** The settlement phase after execution: overflow guard, refund, commit,
      minimum gas and logs. `before` are the requests issued so far. */
  function Settle(msg: Message, cfg: Config, replies: Replies, before: seq<Request>, commit: bool): (r: Outcome)
    ensures |before| <= |Requests(r)| && Requests(r)[..|before|] == before
    ensures forall i :: |before| <= i < |Requests(r)| ==> Requests(r)[i] in [GetRefundReq, CommitReq, GetLogsReq]
    ensures r.Applied? ==> msg.gasLimit >= replies.execLeftover
    ensures r.Applied? ==> Requests(r) == before + [GetRefundReq] + (if commit then [CommitReq] else []) + [GetLogsReq]
  {
    var quotient := RefundQuotient(cfg.isLondon);
    var leftover := replies.execLeftover;
    if msg.gasLimit < leftover then Failed(GasOverflow, before)
    else
      var temporary: uint64 := msg.gasLimit - leftover;
      var reqs := before + [GetRefundReq];
      if replies.refund.Err? then Failed(RemoteFailed(replies.refund.error), reqs)
      else
        var refunded := AddUint64(leftover, GasToRefund(replies.refund.value, temporary, quotient));
        var vmError := if replies.execErr.Some? then replies.execErr.value.message else "";
        var reqs := if commit then reqs + [CommitReq] else reqs;
        if commit && replies.commitErr.Some? then Failed(CommitFailed(replies.commitErr.value), reqs)
        else if msg.gasLimit < refunded then Failed(GasOverflow, reqs)
        else Charge(msg.gasLimit, temporary, cfg.minGasMultiplier, vmError, replies.execRet, replies.logs, reqs)
  }

  /** The last step: the charged gas (or a panic), then the logs. */
  function Charge(gasLimit: uint64, temporary: uint64, multiplier: Option<int>, vmError: string,
                  ret: seq<uint8>, logs: Result<seq<Log>, Error>, before: seq<Request>): (r: Outcome)
    ensures Requests(r) == before + [GetLogsReq] || Requests(r) == before
    ensures r.Applied? ==> Requests(r) == before + [GetLogsReq]
    ensures r.Applied? ==> Some(r.response.gasUsed) == FinalGasUsed(gasLimit, temporary, multiplier)
  {
    match FinalGasUsed(gasLimit, temporary, multiplier)
    case None => Panicked(before)
    case Some(gasUsed) =>
      var reqs := before + [GetLogsReq];
      if logs.Err? then Failed(RemoteFailed(logs.error), reqs)
      else Applied(Response(gasUsed, vmError, ret, logs.value), reqs, SubUint64(gasLimit, gasUsed))
  }

  /** The checks before execution: the failure and the requests issued so far,
      or the gas left for execution. */
  datatype Admission = Rejected(failure: Failure, requests: seq<Request>) | Admitted(gas: uint64)

  /** Gating, the client, `PrepareTx`, the intrinsic-gas check, the init-code
      limit and `Prepare`, in source order. */
  function Admit(msg: Message, cfg: Config, replies: Replies): (r: Admission)
    ensures r.Admitted? ==> replies.intrinsicGas.Ok? && r.gas + replies.intrinsicGas.value == msg.gasLimit
  {
    if Gate(msg, cfg).Some? then Rejected(Gate(msg, cfg).value, [])
    else if replies.clientErr.Some? then Rejected(ClientFailed(replies.clientErr.value), [])
    else if replies.prepareTxErr.Some? then Rejected(PrepareTxFailed(replies.prepareTxErr.value), [PrepareTxReq])
    else if replies.intrinsicGas.Err? then Rejected(IntrinsicGasFailed(replies.intrinsicGas.error), [PrepareTxReq])
    else if msg.gasLimit < replies.intrinsicGas.value then Rejected(IntrinsicGasTooLow, [PrepareTxReq])
    else if cfg.isShanghai && msg.to.None? && |msg.data| > MAX_INIT_CODE_SIZE then
      Rejected(MaxInitCodeSizeExceeded(|msg.data|), [PrepareTxReq])
    else if replies.prepareErr.Some? then Rejected(RemoteFailed(replies.prepareErr.value), [PrepareTxReq, PrepareReq])
    else Admitted(msg.gasLimit - replies.intrinsicGas.value)
  }

  /** `ApplyMessageWithConfig` with no tracer: its checks, remote calls and gas
      arithmetic in source order. A response comes only after the whole
      sequence of state calls, the commit among them exactly when asked for. */
  function ApplyMessage(msg: Message, cfg: Config, replies: Replies, commit: bool): (r: Outcome)
    ensures Requests(r) != [] ==> Requests(r)[0] == PrepareTxReq
    ensures r.Applied? ==> replies.intrinsicGas.Ok? && replies.intrinsicGas.value <= msg.gasLimit
    ensures r.Applied? ==> replies.execLeftover <= msg.gasLimit
  {
    match Admit(msg, cfg, replies)
    case Rejected(f, reqs) => Failed(f, reqs)
    case Admitted(gas) =>
      var (execReqs, err) := Execute(msg, gas, replies);
      var reqs := [PrepareTxReq, PrepareReq] + execReqs;
      if err.Some? then Failed(RemoteFailed(err.value), reqs)
      else Settle(msg, cfg, replies, reqs, commit)
  }

  /** The requests of an outcome. */
  function Requests(o: Outcome): seq<Request>
  {
    match o
    case Failed(_, reqs) => reqs
    case Panicked(reqs) => reqs
    case Applied(_, reqs, _) => reqs
  }

  /** A reply set with a different refund counter. */
  function WithRefund(replies: Replies, refund: uint64): Replies
  {
    replies.(refund := Ok(refund))
  }

  // ---------------------------------------------------------------------------
  // Properties

  /** A creation with creation disabled, or a call with calls disabled, is
      rejected before anything is sent; an enabled kind passes the gate. */
  lemma GatingRejects(msg: Message, cfg: Config, replies: Replies, commit: bool)
    ensures var r := ApplyMessage(msg, cfg, replies, commit);
      && (msg.to.None? && !cfg.enableCreate <==> r == Failed(CreateDisabled, []))
      && (msg.to.Some? && !cfg.enableCall <==> r == Failed(CallDisabled, []))
  {
  }

  /** Too little gas for the intrinsic cost is rejected before any state call. */
  lemma IntrinsicGasCheck(msg: Message, cfg: Config, replies: Replies, commit: bool)
    requires Gate(msg, cfg).None? && replies.clientErr.None? && replies.prepareTxErr.None?
    requires replies.intrinsicGas.Ok?
    ensures var r := ApplyMessage(msg, cfg, replies, commit);
      msg.gasLimit < replies.intrinsicGas.value <==> r == Failed(IntrinsicGasTooLow, [PrepareTxReq])
  {
    if msg.gasLimit >= replies.intrinsicGas.value {
      var a := Admit(msg, cfg, replies);
      assert a.Admitted? || a.failure != IntrinsicGasTooLow;
    }
  }

  /** The execution gets exactly the gas left after the intrinsic cost. */
  lemma ExecutionGas(msg: Message, cfg: Config, replies: Replies, commit: bool)
    ensures var reqs := Requests(ApplyMessage(msg, cfg, replies, commit));
      forall i :: 0 <= i < |reqs| && (reqs[i].CreateReq? || reqs[i].CallReq?) ==>
        replies.intrinsicGas.Ok? && reqs[i].gas + replies.intrinsicGas.value == msg.gasLimit
  {
    match Admit(msg, cfg, replies)
    case Rejected(_, _) =>
    case Admitted(gas) =>
      var (execReqs, err) := Execute(msg, gas, replies);
      var before := [PrepareTxReq, PrepareReq] + execReqs;
      if err.None? {
        var reqs := Requests(Settle(msg, cfg, replies, before, commit));
        forall i | 0 <= i < |reqs| && (reqs[i].CreateReq? || reqs[i].CallReq?)
          ensures reqs[i].gas == gas
        {
          assert i < |before| && reqs[i] == before[i];
        }
      }
  }

  /** Under Shanghai an oversized init code is rejected before any state call. */
  lemma InitCodeLimit(msg: Message, cfg: Config, replies: Replies, commit: bool)
    requires Gate(msg, cfg).None? && replies.clientErr.None? && replies.prepareTxErr.None?
    requires replies.intrinsicGas.Ok? && replies.intrinsicGas.value <= msg.gasLimit
    requires cfg.isShanghai && msg.to.None? && |msg.data| > MAX_INIT_CODE_SIZE
    ensures ApplyMessage(msg, cfg, replies, commit) == Failed(MaxInitCodeSizeExceeded(|msg.data|), [PrepareTxReq])
  {
  }

  /** A creation that reaches `Create` resets the sender's nonce to the
      message nonce just before it and sets it to the next nonce (wrapping as
      a `uint64`) just after it, whatever the execution returned. */
  lemma NonceTakeover(msg: Message, cfg: Config, replies: Replies, commit: bool, i: nat)
    requires msg.to.None?
    requires var reqs := Requests(ApplyMessage(msg, cfg, replies, commit));
      i < |reqs| && reqs[i].CreateReq?
    ensures var reqs := Requests(ApplyMessage(msg, cfg, replies, commit));
      && 0 < i && i + 1 < |reqs|
      && reqs[i - 1] == SetNonceReq(msg.from, msg.nonce)
      && reqs[i + 1] == SetNonceReq(msg.from, AddUint64(msg.nonce, 1))
  {
    var gas := Admit(msg, cfg, replies).gas;
    var before := [PrepareTxReq, PrepareReq] + Execute(msg, gas, replies).0;
    assert Execute(msg, gas, replies).1.None?;
    var reqs := Requests(Settle(msg, cfg, replies, before, commit));
    assert i < |before| && reqs[i] == before[i];
    assert before == [PrepareTxReq, PrepareReq, SetNonceReq(msg.from, msg.nonce),
      CreateReq(msg.from, msg.data, gas, msg.value), SetNonceReq(msg.from, AddUint64(msg.nonce, 1))];
  }

  /** Leftover gas above the limit is an overflow error. */
  lemma OverflowGuard(msg: Message, cfg: Config, replies: Replies, commit: bool)
    requires Gate(msg, cfg).None? && replies.clientErr.None? && replies.prepareTxErr.None?
    requires replies.intrinsicGas.Ok? && replies.intrinsicGas.value <= msg.gasLimit
    requires !(cfg.isShanghai && msg.to.None? && |msg.data| > MAX_INIT_CODE_SIZE)
    requires replies.prepareErr.None? && replies.setNonceErr.None?
    requires msg.gasLimit < replies.execLeftover
    ensures ApplyMessage(msg, cfg, replies, commit).Failed?
    ensures ApplyMessage(msg, cfg, replies, commit).failure == GasOverflow
  {
  }

  /** The refund added back never lifts the leftover above the limit, so the
      second overflow guard cannot fire. */
  lemma RefundWithinLimit(gasLimit: uint64, leftover: uint64, refund: uint64, quotient: nat)
    requires leftover <= gasLimit && quotient >= 1
    ensures leftover + GasToRefund(refund, gasLimit - leftover, quotient) <= gasLimit
    ensures AddUint64(leftover, GasToRefund(refund, gasLimit - leftover, quotient))
         == leftover + GasToRefund(refund, gasLimit - leftover, quotient)
  {
    var used := gasLimit - leftover;
    assert used / quotient <= used by {
      DivBound(used, quotient);
    }
  }

  lemma DivBound(a: nat, q: nat)
    requires q >= 1
    ensures a / q <= a
  {
    MulMono(a / q, 1, q);
    assert (a / q) * q <= a;
  }

  /** Only an overflowing execution leftover is reported as `GasOverflow`. */
  lemma GasOverflowOnlyFromExecution(msg: Message, cfg: Config, replies: Replies, commit: bool)
    ensures ApplyMessage(msg, cfg, replies, commit).Failed? && ApplyMessage(msg, cfg, replies, commit).failure == GasOverflow
      ==> msg.gasLimit < replies.execLeftover
  {
    if replies.execLeftover <= msg.gasLimit && replies.refund.Ok? {
      RefundWithinLimit(msg.gasLimit, replies.execLeftover, replies.refund.value, RefundQuotient(cfg.isLondon));
    }
  }

  /** What an applied outcome is made of. */
  lemma AppliedFacts(msg: Message, cfg: Config, replies: Replies, commit: bool)
    requires ApplyMessage(msg, cfg, replies, commit).Applied?
    ensures var r := ApplyMessage(msg, cfg, replies, commit);
      && replies.execLeftover <= msg.gasLimit
      && FinalGasUsed(msg.gasLimit, msg.gasLimit - replies.execLeftover, cfg.minGasMultiplier) == Some(r.response.gasUsed)
      && r.leftover == SubUint64(msg.gasLimit, r.response.gasUsed)
  {
  }

  /** The state calls of an applied message, in order: `PrepareTx`, `Prepare`,
      the execution (for a creation between the two nonce writes), the refund
      counter, the commit exactly when asked for, and the logs last. */
  lemma AppliedRequests(msg: Message, cfg: Config, replies: Replies, commit: bool)
    requires ApplyMessage(msg, cfg, replies, commit).Applied?
    ensures var reqs := Requests(ApplyMessage(msg, cfg, replies, commit));
      var gas := msg.gasLimit - replies.intrinsicGas.value;
      var exec := if msg.to.None?
        then [SetNonceReq(msg.from, msg.nonce), CreateReq(msg.from, msg.data, gas, msg.value),
              SetNonceReq(msg.from, AddUint64(msg.nonce, 1))]
        else [CallReq(msg.from, msg.to.value, msg.data, gas, msg.value)];
      reqs == [PrepareTxReq, PrepareReq] + exec + [GetRefundReq] + (if commit then [CommitReq] else []) + [GetLogsReq]
  {
    var gas := Admit(msg, cfg, replies).gas;
    var (execReqs, err) := Execute(msg, gas, replies);
    assert err.None?;
    if msg.to.None? {
      assert execReqs == [SetNonceReq(msg.from, msg.nonce), CreateReq(msg.from, msg.data, gas, msg.value),
                          SetNonceReq(msg.from, AddUint64(msg.nonce, 1))];
    }
  }

  /** The last step for a limit that fits an `int64`, a used amount within it
      and a non-negative multiplier: with `v` the larger of the truncated
      minimum and the used amount, it panics exactly when `v` does not fit a
      `uint64`, and otherwise charges `v`, hands the tracer `gasLimit − v`
      (wrapping as a `uint64`) and fails only when the logs cannot be read. */
  lemma ChargeIsMax(gasLimit: uint64, temporary: uint64, multiplier: Option<int>, vmError: string,
                    ret: seq<uint8>, logs: Result<seq<Log>, Error>, before: seq<Request>)
    requires gasLimit < -INT64_MIN && temporary <= gasLimit
    requires multiplier.Some? ==> multiplier.value >= 0
    ensures var m := if multiplier.Some? then multiplier.value else 0;
      var v := Max((gasLimit * m) / DEC_ONE, temporary);
      var r := Charge(gasLimit, temporary, multiplier, vmError, ret, logs, before);
      && (r.Panicked? <==> v >= UINT64_MODULUS)
      && (r.Panicked? ==> r.requests == before)
      && (v < UINT64_MODULUS && logs.Err? ==> r == Failed(RemoteFailed(logs.error), before + [GetLogsReq]))
      && (v < UINT64_MODULUS && logs.Ok? ==>
            && r.Applied?
            && r.response == Response(v, vmError, ret, logs.value)
            && r.leftover == (if v <= gasLimit then gasLimit - v else gasLimit - v + UINT64_MODULUS))
  {
    FinalGasUsedIsMax(gasLimit, temporary, multiplier);
  }

  /** The charged gas is `max(trunc(gasLimit · multiplier), gasLimit − leftover)`
      for limits that fit an `int64` and a non-negative multiplier; a nil
      multiplier counts as zero. */
  lemma GasUsedIsMax(msg: Message, cfg: Config, replies: Replies, commit: bool)
    requires ApplyMessage(msg, cfg, replies, commit).Applied?
    requires msg.gasLimit < -INT64_MIN
    requires cfg.minGasMultiplier.Some? ==> cfg.minGasMultiplier.value >= 0
    ensures var m := if cfg.minGasMultiplier.Some? then cfg.minGasMultiplier.value else 0;
      ApplyMessage(msg, cfg, replies, commit).response.gasUsed
        == Max((msg.gasLimit * m) / DEC_ONE, msg.gasLimit - replies.execLeftover)
    ensures ApplyMessage(msg, cfg, replies, commit).response.gasUsed >= msg.gasLimit - replies.execLeftover
  {
    AppliedFacts(msg, cfg, replies, commit);
    FinalGasUsedIsMax(msg.gasLimit, msg.gasLimit - replies.execLeftover, cfg.minGasMultiplier);
  }

  /** For a limit that fits an `int64`, a used amount within it and a
      non-negative multiplier, the final gas is the larger of the truncated
      minimum and the used amount, and it panics exactly when that does not
      fit a `uint64`. */
  lemma FinalGasUsedIsMax(gasLimit: uint64, temporary: uint64, multiplier: Option<int>)
    requires gasLimit < -INT64_MIN && temporary <= gasLimit
    requires multiplier.Some? ==> multiplier.value >= 0
    ensures var m := if multiplier.Some? then multiplier.value else 0;
      var v := Max((gasLimit * m) / DEC_ONE, temporary);
      FinalGasUsed(gasLimit, temporary, multiplier) == if v < UINT64_MODULUS then Some(v) else None
  {
    var m := if multiplier.Some? then multiplier.value else 0;
    assert ToInt64(temporary) == temporary;
    assert ToInt64(gasLimit) == gasLimit;
    MaxTruncate(gasLimit * m, temporary);
  }

  /** Truncating the larger of a scaled product and a whole number is the larger
      of the truncated product and the whole number. */
  lemma MaxTruncate(x: nat, n: nat)
    ensures TruncateDec(Max(x, n * DEC_ONE)) == Max(x / DEC_ONE, n)
  {
    if x >= n * DEC_ONE {
      DivMono(n * DEC_ONE, x, DEC_ONE);
    } else {
      MulLessCancel(x / DEC_ONE, n, DEC_ONE);
    }
  }

  lemma MulLessCancel(a: int, b: int, d: int)
    requires a * d < b * d && d > 0
    ensures a < b
  {
    assert (b - a) * d == b * d - a * d;
  }

  lemma DivMono(a: nat, b: nat, d: nat)
    requires a <= b && d > 0
    ensures a / d <= b / d
  {
    assert (a / d) * d <= a;
    assert b < (b / d + 1) * d;
    MulLessCancel(a / d, b / d + 1, d);
  }

  /** With a multiplier of at most one, the charged gas never exceeds the limit,
      so the tracer's leftover is exact. */
  lemma GasUsedWithinLimit(msg: Message, cfg: Config, replies: Replies, commit: bool)
    requires ApplyMessage(msg, cfg, replies, commit).Applied?
    requires msg.gasLimit < -INT64_MIN
    requires cfg.minGasMultiplier.Some? ==> 0 <= cfg.minGasMultiplier.value <= DEC_ONE
    ensures var r := ApplyMessage(msg, cfg, replies, commit);
      r.response.gasUsed <= msg.gasLimit && r.leftover == msg.gasLimit - r.response.gasUsed
  {
    GasUsedIsMax(msg, cfg, replies, commit);
    AppliedFacts(msg, cfg, replies, commit);
    ScaledWithin(msg.gasLimit, if cfg.minGasMultiplier.Some? then cfg.minGasMultiplier.value else 0);
  }

  /** Scaling by a decimal of at most one and truncating never grows a value. */
  lemma ScaledWithin(g: nat, m: nat)
    requires m <= DEC_ONE
    ensures (g * m) / DEC_ONE <= g
  {
    MulMono(g, m, DEC_ONE);
    DivMono(g * m, g * DEC_ONE, DEC_ONE);
  }

  lemma MulMono(a: nat, b: nat, c: nat)
    requires b <= c
    ensures a * b <= a * c
  {
    assert a * c - a * b == a * (c - b);
  }

  /** The refund counter never changes the charged gas: it is added to the
      leftover, which is then recomputed from the charged gas. */
  lemma GasUsedIgnoresRefund(msg: Message, cfg: Config, replies: Replies, commit: bool, refund: uint64)
    requires replies.refund.Ok?
    ensures var r1 := ApplyMessage(msg, cfg, replies, commit);
      var r2 := ApplyMessage(msg, cfg, WithRefund(replies, refund), commit);
      r1 == r2
  {
    match Admit(msg, cfg, replies)
    case Rejected(_, _) =>
      assert Admit(msg, cfg, WithRefund(replies, refund)) == Admit(msg, cfg, replies);
    case Admitted(gas) =>
      assert Admit(msg, cfg, WithRefund(replies, refund)) == Admit(msg, cfg, replies);
      assert Execute(msg, gas, WithRefund(replies, refund)) == Execute(msg, gas, replies);
      var before := [PrepareTxReq, PrepareReq] + Execute(msg, gas, replies).0;
      SettleIgnoresRefund(msg, cfg, replies, before, commit, refund);
  }

  lemma SettleIgnoresRefund(msg: Message, cfg: Config, replies: Replies, before: seq<Request>, commit: bool, refund: uint64)
    requires replies.refund.Ok?
    ensures Settle(msg, cfg, replies, before, commit) == Settle(msg, cfg, WithRefund(replies, refund), before, commit)
  {
    if replies.execLeftover <= msg.gasLimit {
      var q := RefundQuotient(cfg.isLondon);
      RefundWithinLimit(msg.gasLimit, replies.execLeftover, replies.refund.value, q);
      RefundWithinLimit(msg.gasLimit, replies.execLeftover, refund, q);
    }
  }

  /** A VM error never fails the call: it comes back as the response's error
      string, with the same gas as a clean run. */
  lemma VmErrorIsResult(msg: Message, cfg: Config, replies: Replies, commit: bool, e: Error)
    requires replies.execErr.None?
    requires ApplyMessage(msg, cfg, replies, commit).Applied?
    ensures var r0 := ApplyMessage(msg, cfg, replies, commit);
      ApplyMessage(msg, cfg, replies.(execErr := Some(e)), commit)
        == r0.(response := r0.response.(vmError := e.message))
  {
    var replies' := replies.(execErr := Some(e));
    assert Admit(msg, cfg, replies') == Admit(msg, cfg, replies);
    var gas: uint64 := Admit(msg, cfg, replies).gas;
    assert Execute(msg, gas, replies') == Execute(msg, gas, replies);
    var reqs := [PrepareTxReq, PrepareReq] + Execute(msg, gas, replies).0;
    SettleVmError(msg, cfg, replies, reqs, commit, e);
  }

  lemma SettleVmError(msg: Message, cfg: Config, replies: Replies, before: seq<Request>, commit: bool, e: Error)
    requires replies.execErr.None?
    requires Settle(msg, cfg, replies, before, commit).Applied?
    ensures var r0 := Settle(msg, cfg, replies, before, commit);
      Settle(msg, cfg, replies.(execErr := Some(e)), before, commit)
        == r0.(response := r0.response.(vmError := e.message))
  {
    var temporary := msg.gasLimit - replies.execLeftover;
    var reqs := before + [GetRefundReq] + (if commit then [CommitReq] else []);
    ChargeVmError(msg.gasLimit, temporary, cfg.minGasMultiplier, "", e.message, replies.execRet, replies.logs, reqs);
  }

  /** The VM error string is carried into the response and nowhere else. */
  lemma ChargeVmError(gasLimit: uint64, temporary: uint64, multiplier: Option<int>, v1: string, v2: string,
                      ret: seq<uint8>, logs: Result<seq<Log>, Error>, before: seq<Request>)
    ensures var r1 := Charge(gasLimit, temporary, multiplier, v1, ret, logs, before);
      Charge(gasLimit, temporary, multiplier, v2, ret, logs, before)
        == if r1.Applied? then r1.(response := r1.response.(vmError := v2)) else r1
  {
  }

  // ---------------------------------------------------------------------------
  // ApplyTransaction bookkeeping

  /** The block gas meter, when the context has one. */
  datatype BlockMeter = BlockMeter(limit: uint64, consumed: uint64)

  /** Cumulative gas for the receipt: the transaction's gas plus what the block
      already consumed (a `uint64` sum), capped at the block limit. */
  function CumulativeGasUsed(gasUsed: uint64, meter: Option<BlockMeter>): (r: uint64)
    ensures meter.None? ==> r == gasUsed
    ensures meter.Some? ==> r <= meter.value.limit
    ensures meter.Some? && gasUsed + meter.value.consumed < UINT64_MODULUS ==>
      r == Min(gasUsed + meter.value.consumed, meter.value.limit)
  {
    if meter.None? then gasUsed
    else
      var sum := AddUint64(gasUsed, meter.value.consumed);
      if sum > meter.value.limit then meter.value.limit else sum
  }

  /** The transient transaction index after the transaction. */
  function NextTxIndex(txIndex: uint64): (r: uint64)
    ensures txIndex + 1 < UINT64_MODULUS ==> r == txIndex + 1
    ensures txIndex + 1 == UINT64_MODULUS ==> r == 0
  {
    AddUint64(txIndex, 1)
  }

  /** The gas returned to the sender: limit minus charged gas, as `uint64`. */
  function RefundToSender(gasLimit: uint64, gasUsed: uint64): (r: uint64)
    ensures gasUsed <= gasLimit ==> r + gasUsed == gasLimit
  {
    SubUint64(gasLimit, gasUsed)
  }

  /** The post-processing hooks' verdict on a successful execution: the
      receipt logs when they pass (a hook may rewrite them), else the error. */
  datatype HookResult = HookOk(logs: seq<Log>) | HookFailed(err: Error)

  /** The response after the post-processing hooks: a failed execution skips
      them; a failing hook turns the response into a failure and clears the
      logs; a passing one publishes the (possibly rewritten) receipt logs.
      `postTxErr` is the text of the post-processing error kind. */
  function PostProcess(res: Response, hook: HookResult, postTxErr: string): (r: Response)
    ensures res.vmError != "" ==> r == res
    ensures res.vmError == "" && hook.HookFailed? ==>
      r.vmError == postTxErr && r.logs == [] && r.gasUsed == res.gasUsed
    ensures res.vmError == "" && hook.HookOk? ==> r.logs == hook.logs && r.vmError == "" && r.gasUsed == res.gasUsed
  {
    if res.vmError != "" then res
    else match hook
      case HookFailed(_) => res.(vmError := postTxErr, logs := [])
      case HookOk(logs) => res.(logs := logs)
  }
}
