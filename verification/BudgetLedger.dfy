/** The agent's token and cost ledger: reserve before a request, settle after it, journal both. Exact arithmetic. */
module BudgetLedger {
  import opened Order

  const DEFAULT_OUTPUT: int := 4096
  const OUTPUT_CAP: int := 65536
  const PER_MILLION: real := 1000000.0
  const MAX_COUNT: real := 1000000000000.0
  const MAX_PRICE: real := 1000000.0
  const NO_RECORD: Record := Record(0.0, 0.0, "")
  const COST_SLACK: real := 0.000000001

  /** What the journal holds. */
  datatype Record = Record(tokens: real, cost: real, currency: string)

  datatype Option<T> = None | Some(value: T)

  /** The journal text found at start-up: none, not a JSON object, or an object with these fields; a number or a string
      that is missing or of another kind is `None`. */
  datatype Previous =
    | Empty
    | Unparsed
    | Parsed(version: Option<real>, tokens: Option<real>, cost: Option<real>, currency: Option<string>)

  datatype Reservation = Reservation(tokens: real, cost: real)

  datatype Usage = Usage(usageKnown: bool, inputTokens: real, outputTokens: real,
                         costKnown: bool, estimatedCost: real, currency: string)

  datatype Request = Request(input: real, output: int, inPrice: real, outPrice: real, unit: string)

  datatype Verdict = Granted | NeedsPrices | JournalFailed | Exhausted | NotPersisted

  /** `journal` is the last record the writer accepted. */
  datatype Ledger = Ledger(
    usedTokens: real, usedCost: real, tokenLimit: real, costLimit: real,
    failed: bool, currency: string, writer: bool, journal: Record)

  function Json(l: Ledger): Record {
    Record(l.usedTokens, l.usedCost, l.currency)
  }

  /** persist: the writer is asked even after a failure, but `failed` never goes away. */
  function Persist(l: Ledger, accepts: bool): Ledger {
    if !l.writer then l
    else if accepts then l.(journal := Json(l))
    else l.(failed := true)
  }

  predicate PersistFails(l: Ledger, accepts: bool) {
    l.failed || (l.writer && !accepts)
  }

  predicate IsCount(x: real) {
    0.0 <= x <= MAX_COUNT && x.Floor as real == x
  }

  predicate IsPrice(x: real) {
    0.0 <= x <= MAX_PRICE
  }

  predicate Readable(r: Record, unit: string) {
    IsCount(r.tokens) && IsPrice(r.cost) && r.currency == unit
  }

  /** Truncation of a non-negative number to an int. */
  function Truncated(x: real): int {
    if x < 0.0 then 0 else x.Floor
  }

  /** What the token limit leaves of the output asked for. */
  function ByTokens(l: Ledger, r: Request): int {
    var wanted := if r.output > 0 then r.output else DEFAULT_OUTPUT;
    if l.tokenLimit > 0.0 then Min(wanted, Truncated(l.tokenLimit - l.usedTokens - r.input)) else wanted
  }

  /** What the cost limit leaves once the input is paid. */
  function Remaining(l: Ledger, r: Request): real {
    l.costLimit - l.usedCost - r.input * r.inPrice / PER_MILLION
  }

  /** Output tokens that an amount buys. */
  function Affordable(amount: real, price: real): (n: int)
    requires price > 0.0
  {
    (amount * PER_MILLION / price).Floor
  }

  /** Output tokens the limits leave for a request. */
  function Allowed(l: Ledger, r: Request): int {
    if l.costLimit <= 0.0 then ByTokens(l, r)
    else if Remaining(l, r) < 0.0 then 0
    else if r.outPrice > 0.0 then Min(ByTokens(l, r), Min(OUTPUT_CAP, Affordable(Remaining(l, r), r.outPrice)))
    else ByTokens(l, r)
  }

  predicate PricesMissing(l: Ledger, r: Request) {
    l.costLimit > 0.0 && (r.unit != l.currency || r.inPrice < 0.0 || r.outPrice < 0.0)
  }

  function ReservationFor(l: Ledger, r: Request, allowed: int): Reservation {
    Reservation(r.input + allowed as real,
                if l.costLimit > 0.0 then (r.input * r.inPrice + allowed as real * r.outPrice) / PER_MILLION else 0.0)
  }

  /** reserve: the ledger after it and the verdict. A reservation that cannot be written stays counted. */
  function DoReserve(l: Ledger, r: Request, accepts: bool): (Ledger, Verdict) {
    if PricesMissing(l, r) then (l, NeedsPrices)
    else
      var allowed := Allowed(l, r);
      if l.failed then (l, JournalFailed)
      else if allowed < 1 then (l, Exhausted)
      else
        var reservation := ReservationFor(l, r, allowed);
        var counted := l.(usedTokens := l.usedTokens + reservation.tokens, usedCost := l.usedCost + reservation.cost);
        var t := Persist(counted, accepts);
        (t, if t.failed then NotPersisted else Granted)
  }

  /** The corrections of settle: each amount is corrected where it is known, the cost only under a cost limit and in the
      ledger's currency. */
  function Corrected(l: Ledger, reservation: Reservation, u: Usage): Ledger {
    l.(usedTokens := if u.usageKnown then l.usedTokens + (u.inputTokens + u.outputTokens - reservation.tokens) else l.usedTokens,
       usedCost := if l.costLimit > 0.0 && u.costKnown && u.currency == l.currency
                   then l.usedCost + (u.estimatedCost - reservation.cost) else l.usedCost)
  }

  /** settle: the ledger after it. A correction that cannot be written is taken back. */
  function DoSettle(l: Ledger, reservation: Reservation, u: Usage, accepts: bool): Ledger {
    var t := Persist(Corrected(l, reservation, u), accepts);
    if t.failed then t.(usedTokens := l.usedTokens, usedCost := l.usedCost) else t
  }

  /** What settle returns: the journal is sound and the limits hold, the cost up to a rounding allowance. */
  predicate SettledWell(l: Ledger) {
    && !l.failed
    && (l.tokenLimit > 0.0 ==> l.usedTokens <= l.tokenLimit)
    && (l.costLimit > 0.0 ==> l.usedCost <= l.costLimit + COST_SLACK)
  }

  /** initialize: limits and writer are set first; fields of the old record are taken over one by one until one is
      not acceptable. */
  function DoInitialize(l: Ledger, tokens: real, cost: real, unit: string, previous: Previous, writer: bool, accepts: bool)
    : (Ledger, bool)
  {
    var t := l.(tokenLimit := tokens, costLimit := cost, currency := unit, writer := writer);
    match previous
    case Unparsed => (t, false)
    case Empty => (Persist(t, accepts), !PersistFails(t, accepts))
    case Parsed(version, tokens, cost, currency) =>
      if version != Some(1.0) || tokens.None? || !IsCount(tokens.value) then (t, false)
      else if cost.None? || !IsPrice(cost.value) then (t.(usedTokens := tokens.value), false)
      else
        var u := t.(usedTokens := tokens.value, usedCost := cost.value);
        if currency != Some(unit) then (u, false)
        else (Persist(u, accepts), !PersistFails(u, accepts))
  }

  /** The text of a record, as it reads back. */
  function Saved(r: Record): Previous {
    Parsed(Some(1.0), Some(r.tokens), Some(r.cost), Some(r.currency))
  }

  predicate WithinLimits(l: Ledger) {
    && (l.tokenLimit > 0.0 ==> l.usedTokens <= l.tokenLimit)
    && (l.costLimit > 0.0 ==> l.usedCost <= l.costLimit)
  }

  predicate AtMost(a: Reservation, b: Reservation) {
    a.tokens <= b.tokens && a.cost <= b.cost
  }

  // One reservation, one settlement.

  lemma {:induction false} TimesBack(a: real, b: real, c: real)
    requires c > 0.0 && a <= b / c
    ensures a * c <= b
  {
    var q := b / c;
    assert q * c == b;
    assert (q - a) * c >= 0.0;
  }

  /** `n` tokens are affordable exactly when their price is within the amount. */
  lemma {:induction false} AffordableMeans(amount: real, price: real, n: int)
    requires price > 0.0
    ensures n <= Affordable(amount, price) <==> n as real * price <= amount * PER_MILLION
  {
    var q := amount * PER_MILLION / price;
    if n <= q.Floor {
      TimesBack(n as real, amount * PER_MILLION, price);
    } else {
      TimesMore(n as real, amount * PER_MILLION, price);
    }
  }

  lemma {:induction false} TimesMore(a: real, b: real, c: real)
    requires c > 0.0 && a > b / c
    ensures a * c > b
  {
    var q := b / c;
    assert q * c == b;
    assert (a - q) * c > 0.0;
  }

  /** A reservation keeps the cost limit exactly when its output is covered by what remains after the input. */
  lemma {:induction false} CostFits(l: Ledger, r: Request, n: int)
    requires l.costLimit > 0.0
    ensures l.usedCost + ReservationFor(l, r, n).cost <= l.costLimit
            <==> n as real * r.outPrice <= Remaining(l, r) * PER_MILLION
  {
  }

  /** A granted reservation keeps the used amounts within every configured limit and gives between one token and what
      was asked for (4096 when nothing was). */
  lemma {:induction false} GrantWithinLimits(l: Ledger, r: Request, accepts: bool)
    requires DoReserve(l, r, accepts).1 == Granted
    ensures WithinLimits(DoReserve(l, r, accepts).0)
    ensures 1 <= Allowed(l, r) <= if r.output > 0 then r.output else DEFAULT_OUTPUT
  {
    AllowedFits(l, r);
  }

  lemma {:induction false} AllowedFits(l: Ledger, r: Request)
    requires !PricesMissing(l, r) && Allowed(l, r) >= 1
    ensures var reservation := ReservationFor(l, r, Allowed(l, r));
            && (l.tokenLimit > 0.0 ==> l.usedTokens + reservation.tokens <= l.tokenLimit)
            && (l.costLimit > 0.0 ==> l.usedCost + reservation.cost <= l.costLimit)
  {
    var n := Allowed(l, r);
    if l.costLimit > 0.0 {
      CostFits(l, r, n);
      hide ReservationFor, Remaining, Affordable;
      if r.outPrice > 0.0 { AffordableMeans(Remaining(l, r), r.outPrice, n); }
      assert r.outPrice == 0.0 ==> n as real * r.outPrice == 0.0;
    }
    TokensFit(l, r, n);
  }

  lemma {:induction false} TokensFit(l: Ledger, r: Request, n: int)
    requires 1 <= n && (l.tokenLimit > 0.0 ==> n <= Truncated(l.tokenLimit - l.usedTokens - r.input))
    ensures l.tokenLimit > 0.0 ==> l.usedTokens + ReservationFor(l, r, n).tokens <= l.tokenLimit
  {
  }

  /** The limits cut no request needlessly: a smaller output than asked for is the largest that keeps every limit,
      or the cap on priced outputs. */
  lemma {:induction false} GrantIsLargest(l: Ledger, r: Request)
    requires !PricesMissing(l, r) && 1 <= Allowed(l, r) < (if r.output > 0 then r.output else DEFAULT_OUTPUT)
    requires Allowed(l, r) != OUTPUT_CAP
    ensures var more := ReservationFor(l, r, Allowed(l, r) + 1);
            || (l.tokenLimit > 0.0 && l.usedTokens + more.tokens > l.tokenLimit)
            || (l.costLimit > 0.0 && l.usedCost + more.cost > l.costLimit)
  {
    var more := Allowed(l, r) + 1;
    var n, wanted := Allowed(l, r), if r.output > 0 then r.output else DEFAULT_OUTPUT;
    if l.tokenLimit > 0.0 && n == Truncated(l.tokenLimit - l.usedTokens - r.input) {
      assert (n + 1) as real > l.tokenLimit - l.usedTokens - r.input;
    } else {
      assert n == Affordable(Remaining(l, r), r.outPrice) by { hide Affordable, Remaining; }
      AffordableMeans(Remaining(l, r), r.outPrice, n + 1);
      CostFits(l, r, n + 1);
    }
  }

  /** A settlement within its reservation is reported as well settled exactly when the journal is sound. */
  lemma {:induction false} ModestSettlement(l: Ledger, reservation: Reservation, u: Usage, accepts: bool)
    requires WithinLimits(l) && AtMost(Charge(l, reservation, u), reservation)
    ensures SettledWell(DoSettle(l, reservation, u, accepts)) <==> !l.failed && (l.writer ==> accepts)
  {
  }

  /** What a settlement does to the amounts. When its write is accepted: unknown usage leaves the tokens alone, so that the
      reservation stays counted in full, and known usage takes the reservation's place; the cost changes only under a
      cost limit, when it is known, and in the ledger's currency, and then the estimate takes the reservation's place.
      When the write is not accepted, or an earlier one was not, nothing is corrected and the ledger is failed. */
  lemma {:induction false} SettleAmounts(l: Ledger, reservation: Reservation, u: Usage, accepts: bool)
    ensures var t := DoSettle(l, reservation, u, accepts);
            if !l.failed && (l.writer ==> accepts) then
              && t.usedTokens == (if u.usageKnown then l.usedTokens - reservation.tokens + u.inputTokens + u.outputTokens
                                  else l.usedTokens)
              && t.usedCost == (if l.costLimit > 0.0 && u.costKnown && u.currency == l.currency
                                then l.usedCost - reservation.cost + u.estimatedCost else l.usedCost)
              && !t.failed && (l.writer ==> t.journal == Record(t.usedTokens, t.usedCost, l.currency))
            else
              t.failed && t.usedTokens == l.usedTokens && t.usedCost == l.usedCost
    ensures var t := DoSettle(l, reservation, u, accepts);
            t == l.(usedTokens := t.usedTokens, usedCost := t.usedCost, failed := t.failed, journal := t.journal)
  {
  }

  /** What settle answers: the write was accepted and no earlier one failed, and both limits hold, the cost's up to a
      billionth. */
  lemma {:induction false} SettleAnswers(l: Ledger, reservation: Reservation, u: Usage, accepts: bool)
    ensures var t := DoSettle(l, reservation, u, accepts);
            SettledWell(t) <==>
              && !l.failed && (l.writer ==> accepts)
              && (l.tokenLimit <= 0.0 || t.usedTokens <= l.tokenLimit)
              && (l.costLimit <= 0.0 || t.usedCost <= l.costLimit + 0.000000001)
  {
  }

  /** `n` tokens of output keep both limits: the tokens with the input, and the price of both; a priced output under a
      cost limit has at most 65536. */
  predicate Fits(l: Ledger, r: Request, n: int) {
    && (l.tokenLimit > 0.0 ==> l.usedTokens + r.input + n as real <= l.tokenLimit)
    && (l.costLimit > 0.0 ==>
          && l.usedCost + (r.input * r.inPrice + n as real * r.outPrice) / 1000000.0 <= l.costLimit
          && (r.outPrice > 0.0 ==> n <= 65536))
  }

  /** The output of a request is the largest that fits, up to what was asked for, or 4096 when nothing was. */
  lemma {:induction false} OutputIsLargest(l: Ledger, r: Request, n: int)
    requires n >= 1 && (l.costLimit > 0.0 ==> r.unit == l.currency && r.inPrice >= 0.0 && r.outPrice >= 0.0)
    ensures n <= Allowed(l, r) <==> n <= (if r.output > 0 then r.output else 4096) && Fits(l, r, n)
  {
    TokensExact(l, r, n);
    if l.costLimit > 0.0 {
      CostFits(l, r, n);
      if r.outPrice > 0.0 {
        AffordableMeans(Remaining(l, r), r.outPrice, n);
        assert n as real * r.outPrice > 0.0 by { NotNegative(n as real - 1.0, r.outPrice); }
      } else {
        assert n as real * r.outPrice == 0.0;
      }
      hide Affordable, Remaining;
    }
  }

  lemma {:induction false} TokensExact(l: Ledger, r: Request, n: int)
    requires n >= 1
    ensures n <= ByTokens(l, r) <==>
              n <= (if r.output > 0 then r.output else 4096)
              && (l.tokenLimit > 0.0 ==> l.usedTokens + r.input + n as real <= l.tokenLimit)
  {
  }

  /** When a request is granted, and why not: prices that a cost limit needs are missing; an earlier write failed; not even
      one token of output fits; the reservation cannot be written. */
  lemma {:induction false} ReserveAnswers(l: Ledger, r: Request, accepts: bool)
    ensures var verdict := DoReserve(l, r, accepts).1;
            var priced := l.costLimit > 0.0 ==> r.unit == l.currency && r.inPrice >= 0.0 && r.outPrice >= 0.0;
            && (verdict == NeedsPrices <==> !priced)
            && (verdict == JournalFailed <==> priced && l.failed)
            && (verdict == Exhausted <==> priced && !l.failed && !Fits(l, r, 1))
            && (verdict == NotPersisted <==> priced && !l.failed && Fits(l, r, 1) && l.writer && !accepts)
            && (verdict == Granted <==> priced && !l.failed && Fits(l, r, 1) && (l.writer ==> accepts))
  {
    if !PricesMissing(l, r) { OutputIsLargest(l, r, 1); }
    hide Allowed, Fits, ReservationFor;
  }

  /** A granted request adds its input and output, and under a cost limit their price, to what is used and journalled;
      one that could not be written is counted all the same; any other changes nothing. */
  lemma {:induction false} ReserveAmounts(l: Ledger, r: Request, accepts: bool)
    ensures var (t, verdict) := DoReserve(l, r, accepts);
            var n := Allowed(l, r);
            && (if verdict == Granted || verdict == NotPersisted then
                  && t.usedTokens == l.usedTokens + r.input + n as real
                  && t.usedCost == l.usedCost + (if l.costLimit > 0.0 then (r.input * r.inPrice + n as real * r.outPrice) / 1000000.0 else 0.0)
                  && t.failed == (verdict == NotPersisted)
                  && (verdict == Granted && l.writer ==> t.journal == Record(t.usedTokens, t.usedCost, l.currency))
                  && (verdict == NotPersisted ==> t.journal == l.journal)
                else t == l)
            && t == l.(usedTokens := t.usedTokens, usedCost := t.usedCost, failed := t.failed, journal := t.journal)
  {
    hide Allowed;
  }

  // Whole runs.

  /** What a settled reservation finally counts for: reported usage where it is known, else what was reserved. */
  function Charge(l: Ledger, reservation: Reservation, u: Usage): Reservation {
    Reservation(
      if u.usageKnown then u.inputTokens + u.outputTokens else reservation.tokens,
      if l.costLimit > 0.0 && u.costKnown && u.currency == l.currency then u.estimatedCost else reservation.cost)
  }

  /** A settlement names one of the reservations still outstanding. */
  datatype Op =
    | Reserve(request: Request, accepts: bool)
    | Settle(index: nat, usage: Usage, accepts: bool)

  /** The ledger with the reservations its callers still hold and the charges settled so far. */
  datatype Run = Run(ledger: Ledger, outstanding: seq<Reservation>, settled: seq<Reservation>)

  function StepOp(s: Run, op: Op): Run {
    match op
    case Reserve(r, accepts) =>
      var (t, verdict) := DoReserve(s.ledger, r, accepts);
      s.(ledger := t, outstanding :=
           if verdict == Granted then s.outstanding + [ReservationFor(s.ledger, r, Allowed(s.ledger, r))] else s.outstanding)
    case Settle(i, u, accepts) =>
      if i >= |s.outstanding| then s
      else
        Run(DoSettle(s.ledger, s.outstanding[i], u, accepts),
            s.outstanding[..i] + s.outstanding[i + 1..],
            s.settled + [Charge(s.ledger, s.outstanding[i], u)])
  }

  function Steps(s: Run, ops: seq<Op>): Run
    decreases |ops|
  {
    if ops == [] then s else Steps(StepOp(s, ops[0]), ops[1..])
  }

  function SumTokens(rs: seq<Reservation>): real {
    if rs == [] then 0.0 else rs[0].tokens + SumTokens(rs[1..])
  }

  function SumCost(rs: seq<Reservation>): real {
    if rs == [] then 0.0 else rs[0].cost + SumCost(rs[1..])
  }

  lemma {:induction false} SumsSplit(a: seq<Reservation>, b: seq<Reservation>)
    ensures SumTokens(a + b) == SumTokens(a) + SumTokens(b) && SumCost(a + b) == SumCost(a) + SumCost(b)
    decreases |a|
  {
    if a == [] {
      assert a + b == b;
    } else {
      SumsSplit(a[1..], b);
      assert (a + b)[1..] == a[1..] + b;
    }
  }

  /** What is owed: the starting amount, every settled charge, and every outstanding reservation in full. */
  function DueTokens(s: Run, start: real): real {
    start + SumTokens(s.settled) + SumTokens(s.outstanding)
  }

  function DueCost(s: Run, start: real): real {
    start + SumCost(s.settled) + SumCost(s.outstanding)
  }

  lemma {:induction false} DueAfter(s: Run, op: Op, startTokens: real, startCost: real)
    ensures var t := StepOp(s, op);
            var grants := op.Reserve? && DoReserve(s.ledger, op.request, op.accepts).1 == Granted;
            var settles := op.Settle? && op.index < |s.outstanding|;
            var more := if grants then ReservationFor(s.ledger, op.request, Allowed(s.ledger, op.request))
                        else if settles then Charge(s.ledger, s.outstanding[op.index], op.usage) else Reservation(0.0, 0.0);
            var less := if settles then s.outstanding[op.index] else Reservation(0.0, 0.0);
            && DueTokens(t, startTokens) == DueTokens(s, startTokens) + more.tokens - less.tokens
            && DueCost(t, startCost) == DueCost(s, startCost) + more.cost - less.cost
  {
    hide DoReserve, DoSettle, Charge, Allowed, ReservationFor, SumTokens, SumCost;
    match op
    case Reserve(r, accepts) => Appended(s.outstanding, ReservationFor(s.ledger, r, Allowed(s.ledger, r)));
    case Settle(i, u, accepts) =>
      if i < |s.outstanding| {
        Appended(s.settled, Charge(s.ledger, s.outstanding[i], u));
        TakenOut(s.outstanding, i);
      }
  }

  lemma {:induction false} Appended(rs: seq<Reservation>, r: Reservation)
    ensures SumTokens(rs + [r]) == SumTokens(rs) + r.tokens && SumCost(rs + [r]) == SumCost(rs) + r.cost
  {
    SumsSplit(rs, [r]);
    assert [r][1..] == [];
  }

  lemma {:induction false} TakenOut(rs: seq<Reservation>, i: nat)
    requires i < |rs|
    ensures SumTokens(rs) == SumTokens(rs[..i] + rs[i + 1..]) + rs[i].tokens
    ensures SumCost(rs) == SumCost(rs[..i] + rs[i + 1..]) + rs[i].cost
  {
    var before, after := rs[..i], rs[i + 1..];
    SumsSplit(before + [rs[i]], after);
    Appended(before, rs[i]);
    SumsSplit(before, after);
    assert rs == (before + [rs[i]]) + after;
  }

  /** The ledger counts exactly what is owed and the journal agrees. */
  predicate Exact(s: Run, startTokens: real, startCost: real) {
    && s.ledger.usedTokens == DueTokens(s, startTokens)
    && s.ledger.usedCost == DueCost(s, startCost)
    && (s.ledger.writer ==> s.ledger.journal == Json(s.ledger))
  }

  /** Conservation: in every run, until a journal write fails, the used amounts are the starting amounts plus the
      charges of settled reservations plus the full amount of the others, and so is the journal. */
  lemma {:induction false} RunConserves(s: Run, ops: seq<Op>, startTokens: real, startCost: real)
    requires Exact(s, startTokens, startCost)
    ensures !Steps(s, ops).ledger.failed ==> Exact(Steps(s, ops), startTokens, startCost)
    decreases |ops|
  {
    if ops != [] {
      var t := StepOp(s, ops[0]);
      if t.ledger.failed {
        FailureLasts(t, ops[1..]);
      } else {
        DueAfter(s, ops[0], startTokens, startCost);
        RunConserves(t, ops[1..], startTokens, startCost);
      }
    }
  }

  /** What one operation does to the amounts, as the operation says: a granted request adds its input and its output, a
      settlement with known amounts puts these in the place of what was reserved. */
  function Moved(s: Run, op: Op): Reservation {
    match op
    case Reserve(r, accepts) =>
      if DoReserve(s.ledger, r, accepts).1 != Granted then Reservation(0.0, 0.0)
      else
        var n := Allowed(s.ledger, r) as real;
        Reservation(r.input + n, if s.ledger.costLimit > 0.0 then (r.input * r.inPrice + n * r.outPrice) / 1000000.0 else 0.0)
    case Settle(i, u, accepts) =>
      if i >= |s.outstanding| then Reservation(0.0, 0.0)
      else
        Reservation(
          if u.usageKnown then u.inputTokens + u.outputTokens - s.outstanding[i].tokens else 0.0,
          if s.ledger.costLimit > 0.0 && u.costKnown && u.currency == s.ledger.currency
          then u.estimatedCost - s.outstanding[i].cost else 0.0)
  }

  function AllMoved(s: Run, ops: seq<Op>): (all: seq<Reservation>)
    ensures |all| == |ops|
    decreases |ops|
  {
    if ops == [] then [] else [Moved(s, ops[0])] + AllMoved(StepOp(s, ops[0]), ops[1..])
  }

  /** So the used amounts of a run are those it started with plus what its operations say, until a write fails. */
  lemma {:induction false} RunCounts(s: Run, ops: seq<Op>)
    requires !Steps(s, ops).ledger.failed
    ensures Steps(s, ops).ledger.usedTokens == s.ledger.usedTokens + SumTokens(AllMoved(s, ops))
    ensures Steps(s, ops).ledger.usedCost == s.ledger.usedCost + SumCost(AllMoved(s, ops))
    decreases |ops|
  {
    if ops != [] {
      var op := ops[0];
      if s.ledger.failed { FailureLasts(s, ops); }
      if StepOp(s, op).ledger.failed { FailureLasts(StepOp(s, op), ops[1..]); }
      match op {
        case Reserve(r, accepts) => ReserveAmounts(s.ledger, r, accepts);
        case Settle(i, u, accepts) => if i < |s.outstanding| { SettleAmounts(s.ledger, s.outstanding[i], u, accepts); }
      }
      hide DoReserve, DoSettle, Allowed;
      RunCounts(StepOp(s, op), ops[1..]);
      assert AllMoved(s, ops)[1..] == AllMoved(StepOp(s, op), ops[1..]);
    }
  }

  /** Once a write has failed no later reservation is granted and the used amounts stand still. */
  lemma {:induction false} FailureLasts(s: Run, ops: seq<Op>)
    requires s.ledger.failed
    ensures var t := Steps(s, ops);
            && t.ledger.failed && |t.outstanding| <= |s.outstanding|
            && t.ledger.usedTokens == s.ledger.usedTokens && t.ledger.usedCost == s.ledger.usedCost
    decreases |ops|
  {
    if ops != [] { FailureLasts(StepOp(s, ops[0]), ops[1..]); }
  }

  /** Re-reading the journal would not count less than what is owed. */
  predicate Covered(s: Run, startTokens: real, startCost: real) {
    && s.ledger.writer
    && s.ledger.journal.tokens >= DueTokens(s, startTokens) && s.ledger.journal.cost >= DueCost(s, startCost)
    && s.ledger.usedTokens >= DueTokens(s, startTokens) && s.ledger.usedCost >= DueCost(s, startCost)
    && (!s.ledger.failed ==> Exact(s, startTokens, startCost))
  }

  /** No settlement reports more than was reserved once the journal has failed or while its write fails. */
  predicate Prudent(s: Run, op: Op) {
    (op.Settle? && op.index < |s.outstanding| && StepOp(s, op).ledger.failed) ==>
      AtMost(Charge(s.ledger, s.outstanding[op.index], op.usage), s.outstanding[op.index])
  }

  predicate AllPrudent(s: Run, ops: seq<Op>)
    decreases |ops|
  {
    ops == [] || (Prudent(s, ops[0]) && AllPrudent(StepOp(s, ops[0]), ops[1..]))
  }

  /** The amounts a reservation adds are not negative. */
  predicate Sensible(op: Op) {
    op.Reserve? ==> op.request.input >= 0.0
  }

  lemma {:induction false} ReservationPositive(l: Ledger, r: Request, allowed: int)
    requires !PricesMissing(l, r) && allowed >= 1 && r.input >= 0.0
    ensures ReservationFor(l, r, allowed).tokens >= 0.0 && ReservationFor(l, r, allowed).cost >= 0.0
  {
    if l.costLimit > 0.0 {
      assert r.input * r.inPrice >= 0.0;
      assert allowed as real * r.outPrice >= 0.0;
    }
  }

  lemma {:induction false} StepCovered(s: Run, op: Op, startTokens: real, startCost: real)
    requires Covered(s, startTokens, startCost) && Prudent(s, op) && Sensible(op)
    ensures Covered(StepOp(s, op), startTokens, startCost)
  {
    DueAfter(s, op, startTokens, startCost);
    match op
    case Reserve(r, accepts) =>
      if !PricesMissing(s.ledger, r) && Allowed(s.ledger, r) >= 1 {
        ReservationPositive(s.ledger, r, Allowed(s.ledger, r));
      }
    case Settle(i, u, accepts) =>
  }

  /** Crash recovery: at every point of every run, through any pattern of failing and succeeding writes, the last
      record the writer accepted counts at least what is owed. */
  lemma {:induction false} RecoveryNeverUndercounts(s: Run, ops: seq<Op>, startTokens: real, startCost: real)
    requires Covered(s, startTokens, startCost) && AllPrudent(s, ops) && forall op :: op in ops ==> Sensible(op)
    ensures Covered(Steps(s, ops), startTokens, startCost)
    decreases |ops|
  {
    if ops != [] {
      StepCovered(s, ops[0], startTokens, startCost);
      RecoveryNeverUndercounts(StepOp(s, ops[0]), ops[1..], startTokens, startCost);
    }
  }

  /** The condition on overruns is exact: when the write of a settlement is the first to fail, the journal undercounts
      precisely if the reported usage exceeds the reservation. */
  lemma {:induction false} FailingSettle(s: Run, i: nat, u: Usage, startTokens: real, startCost: real)
    requires s.ledger.writer && !s.ledger.failed && Exact(s, startTokens, startCost) && i < |s.outstanding|
    ensures Covered(StepOp(s, Settle(i, u, false)), startTokens, startCost)
            <==> AtMost(Charge(s.ledger, s.outstanding[i], u), s.outstanding[i])
  {
    DueAfter(s, Settle(i, u, false), startTokens, startCost);
  }

  /** The limits hold at every point of a run whose settlements report at most what was reserved. */
  lemma {:induction false} LimitsKept(s: Run, ops: seq<Op>)
    requires WithinLimits(s.ledger) && AllModest(s, ops)
    ensures WithinLimits(Steps(s, ops).ledger)
    decreases |ops|
  {
    if ops != [] {
      var op := ops[0];
      if op.Reserve? && !PricesMissing(s.ledger, op.request) && Allowed(s.ledger, op.request) >= 1 {
        AllowedFits(s.ledger, op.request);
      }
      LimitsKept(StepOp(s, op), ops[1..]);
    }
  }

  predicate AllModest(s: Run, ops: seq<Op>)
    decreases |ops|
  {
    ops == [] ||
    ((ops[0].Settle? && ops[0].index < |s.outstanding| ==>
        AtMost(Charge(s.ledger, s.outstanding[ops[0].index], ops[0].usage), s.outstanding[ops[0].index]))
     && AllModest(StepOp(s, ops[0]), ops[1..]))
  }

  const UNUSED: Ledger := Ledger(0.0, 0.0, 0.0, 0.0, false, "", false, NO_RECORD)

  // The printed journal.

  function Pow10(e: nat): (p: int)
    ensures p > 0
  {
    if e == 0 then 1 else 10 * Pow10(e - 1)
  }

  /** `x` is a ten-digit whole number times or divided by a power of ten. */
  predicate Scaled(x: real, m: int, e: nat) {
    -10000000000 < m < 10000000000 && (x == (m * Pow10(e)) as real || x * Pow10(e) as real == m as real)
  }

  /** At most ten significant decimal digits. */
  ghost predicate TenDigits(x: real) {
    exists m: int, e: nat :: Scaled(x, m, e)
  }

  function Distance(x: real, y: real): real {
    if x < y then y - x else x - y
  }

  /** What "%.10g" may print for `x`: a ten-digit number nearest to it, whichever way ties are rounded. */
  ghost predicate PrintedAs(x: real, y: real) {
    TenDigits(y) && forall z :: TenDigits(z) ==> Distance(x, y) <= Distance(x, z)
  }

  /** Numbers of ten digits are printed exactly. */
  lemma {:induction false} PrintsExactly(x: real, y: real)
    requires TenDigits(x) && PrintedAs(x, y)
    ensures y == x
  {
    assert Distance(x, y) <= Distance(x, x);
  }

  /** Token counts below 10^12 lose less than 100 tokens in print. */
  lemma {:induction false} TokensPrintClose(n: nat, y: real)
    requires n < 1000000000000 && PrintedAs(n as real, y)
    ensures Distance(n as real, y) < 100.0
  {
    var m := n / 100;
    assert Pow10(2) == 10 * Pow10(1) == 100;
    assert Scaled((m * 100) as real, m, 2);
    assert Distance(n as real, (m * 100) as real) < 100.0;
  }

  /** The text of this record, each number as it may be printed. */
  ghost predicate RecordPrintedAs(r: Record, printed: Record) {
    PrintedAs(r.tokens, printed.tokens) && PrintedAs(r.cost, printed.cost) && printed.currency == r.currency
  }

  /** A process restarted from the last accepted text, whatever happened before the crash, starts exactly when the
      printed record is readable in its currency and its own first write succeeds. It then counts at least what was
      owed wherever the recorded amounts have at most ten digits. */
  lemma {:induction false} RestartCounts(s: Run, ops: seq<Op>, startTokens: real, startCost: real, printed: Record,
                                         tokens: real, cost: real, unit: string, accepts: bool)
    requires Covered(s, startTokens, startCost) && AllPrudent(s, ops) && forall op :: op in ops ==> Sensible(op)
    requires RecordPrintedAs(Steps(s, ops).ledger.journal, printed)
    ensures var before := Steps(s, ops);
            var (after, ok) := DoInitialize(UNUSED, tokens, cost, unit, Saved(printed), true, accepts);
            && (ok <==> accepts && Readable(printed, unit))
            && (ok ==> after.usedTokens == printed.tokens && after.usedCost == printed.cost)
            && (ok && TenDigits(before.ledger.journal.tokens) ==> after.usedTokens >= DueTokens(before, startTokens))
            && (ok && TenDigits(before.ledger.journal.cost) ==> after.usedCost >= DueCost(before, startCost))
            && (ok ==> Covered(Run(after, [], []), after.usedTokens, after.usedCost))
  {
    hide TenDigits;
    RecoveryNeverUndercounts(s, ops, startTokens, startCost);
    var journal := Steps(s, ops).ledger.journal;
    if TenDigits(journal.tokens) { PrintsExactly(journal.tokens, printed.tokens); }
    if TenDigits(journal.cost) { PrintsExactly(journal.cost, printed.cost); }
  }

  /** Eleven digits are too many: 12345678901 tokens are printed, and recovered, as 12345678900. */
  lemma {:induction false} RoundingUndercounts(y: real)
    requires PrintedAs(12345678901.0, y)
    ensures y == 12345678900.0
  {
    assert Pow10(1) == 10;
    assert Scaled(12345678900.0, 1234567890, 1);
    assert Distance(12345678901.0, y) <= Distance(12345678901.0, 12345678900.0);
    var m: int, e: nat :| Scaled(y, m, e);
    if y == (m * Pow10(e)) as real {
      NearElevenDigits(m, e, m * Pow10(e));
    } else {
      TooSmall(y, m, e);
    }
  }

  lemma {:induction false} TooSmall(y: real, m: int, e: nat)
    requires y * Pow10(e) as real == m as real && m < 10000000000
    ensures y < 10000000000.0
  {
    var p := Pow10(e) as real;
    if y >= 0.0 {
      assert p >= 1.0;
      NotNegative(y, p - 1.0);
      assert y * p == y * (p - 1.0) + y;
    }
  }

  lemma {:induction false} NotNegative(a: real, b: real)
    requires a >= 0.0 && b >= 0.0
    ensures a * b >= 0.0
  {
  }

  lemma {:induction false} NearElevenDigits(m: int, e: nat, v: int)
    requires -10000000000 < m < 10000000000 && v == m * Pow10(e) && 12345678900 <= v <= 12345678902
    ensures v == 12345678900
  {
    var rest := if e == 0 then 0 else m * Pow10(e - 1);
    assert e > 0 ==> v == 10 * rest;
  }

  /** A ledger started without an old record, its first write accepted, owes nothing and covers that. */
  lemma {:induction false} FreshCovered(tokens: real, cost: real, unit: string)
    ensures var (after, ok) := DoInitialize(UNUSED, tokens, cost, unit, Empty, true, true);
            ok && Covered(Run(after, [], []), 0.0, 0.0) && Exact(Run(after, [], []), 0.0, 0.0)
  {
  }

  /** A start succeeds exactly when no earlier write failed, its own is accepted, and the old record is missing or is one
      of version 1 with a whole number of tokens up to 10^12, a cost up to 10^6 and the ledger's currency; the amounts of
      such a record are taken over. A start that fails may have taken over the tokens already. */
  lemma {:induction false} StartAccepts(l: Ledger, tokens: real, cost: real, unit: string, previous: Previous, writer: bool, accepts: bool)
    ensures var (t, ok) := DoInitialize(l, tokens, cost, unit, previous, writer, accepts);
            && (ok <==>
                  && !l.failed && (writer ==> accepts)
                  && (previous.Empty? ||
                      (&& previous.Parsed? && previous.version == Some(1.0) && previous.currency == Some(unit)
                       && previous.tokens.Some? && 0.0 <= previous.tokens.value <= 1000000000000.0
                       && previous.tokens.value.Floor as real == previous.tokens.value
                       && previous.cost.Some? && 0.0 <= previous.cost.value <= 1000000.0)))
            && t.tokenLimit == tokens && t.costLimit == cost && t.currency == unit && t.writer == writer
            && (ok ==>
                  && t.usedTokens == (if previous.Empty? then l.usedTokens else previous.tokens.value)
                  && t.usedCost == (if previous.Empty? then l.usedCost else previous.cost.value)
                  && (writer ==> t.journal == Record(t.usedTokens, t.usedCost, unit)))
            && (!ok ==>
                  && t.usedTokens == (if previous.Parsed? && previous.version == Some(1.0) && previous.tokens.Some?
                                         && IsCount(previous.tokens.value) then previous.tokens.value else l.usedTokens)
                  && (t.usedCost == l.usedCost || (previous.Parsed? && previous.cost == Some(t.usedCost))))
  {
  }

  /** From such a start: reserve 150 tokens, use 180, and lose the settlement's write. The journal counts 150 of the 180
      owed. */
  lemma {:induction false} OverrunForgotten()
    ensures var ledger := DoInitialize(UNUSED, 0.0, 0.0, "", Empty, true, true).0;
            var reserve := Reserve(Request(100.0, 50, 0.0, 0.0, ""), true);
            var settle := Settle(0, Usage(true, 100.0, 80.0, false, 0.0, ""), false);
            var after := Steps(Run(ledger, [], []), [reserve, settle]);
            && DueTokens(after, 0.0) == 180.0
            && after.ledger.journal.tokens == 150.0
            && after.ledger.failed
  {
    var ledger := DoInitialize(UNUSED, 0.0, 0.0, "", Empty, true, true).0;
    var reserve := Reserve(Request(100.0, 50, 0.0, 0.0, ""), true);
    var settle := Settle(0, Usage(true, 100.0, 80.0, false, 0.0, ""), false);
    var start := Run(ledger, [], []);
    var granted := StepOp(start, reserve);
    assert granted.outstanding == [Reservation(150.0, 0.0)] && granted.ledger.journal.tokens == 150.0;
    var after := StepOp(granted, settle);
    assert after.settled == [Reservation(180.0, 0.0)] && after.outstanding == [];
    assert SumTokens([Reservation(180.0, 0.0)]) == 180.0 + SumTokens([]);
    assert [reserve, settle][1..] == [settle] && [settle][1..] == [];
    assert Steps(start, [reserve, settle]) == Steps(granted, [settle]) == Steps(after, []);
  }

  /** The ledger as the agent holds it. */
  class AgentBudgetLedger {
    var usedTokens: real
    var usedCost: real
    var tokenLimit: real
    var costLimit: real
    var failed: bool
    var currency: string
    var writer: bool
    var journal: Record

    ghost function State(): Ledger
      reads this
    {
      Ledger(usedTokens, usedCost, tokenLimit, costLimit, failed, currency, writer, journal)
    }

    constructor ()
      ensures State() == UNUSED
    {
      usedTokens, usedCost, tokenLimit, costLimit := 0.0, 0.0, 0.0, 0.0;
      failed, currency, writer, journal := false, "", false, NO_RECORD;
    }

    method PersistNow(accepts: bool) returns (ok: bool)
      modifies this`failed, this`journal
      ensures State() == Persist(old(State()), accepts) && ok == !failed
    {
      if writer {
        if accepts {
          journal := Record(usedTokens, usedCost, currency);
        } else {
          failed := true;
        }
      }
      ok := !failed;
    }

    method Initialize(tokens: real, cost: real, unit: string, previous: Previous, hasWriter: bool, accepts: bool)
      returns (ok: bool)
      modifies this
      ensures (State(), ok) == DoInitialize(old(State()), tokens, cost, unit, previous, hasWriter, accepts)
    {
      tokenLimit, costLimit, currency, writer := tokens, cost, unit, hasWriter;
      if previous.Unparsed? {
        return false;
      }
      if previous.Parsed? {
        if previous.version != Some(1.0) || previous.tokens.None? || !IsCount(previous.tokens.value) {
          return false;
        }
        usedTokens := previous.tokens.value;
        if previous.cost.None? || !IsPrice(previous.cost.value) {
          return false;
        }
        usedCost := previous.cost.value;
        if previous.currency != Some(unit) {
          return false;
        }
      }
      ok := PersistNow(accepts);
    }

    /** The part of reserve that works out the output, from the ledger as it stands. */
    method AllowedOutput(request: Request) returns (missing: bool, allowed: int)
      ensures missing == PricesMissing(State(), request)
      ensures !missing ==> allowed == Allowed(State(), request)
    {
      allowed := if request.output > 0 then request.output else DEFAULT_OUTPUT;
      if tokenLimit > 0.0 {
        allowed := Min(allowed, Truncated(tokenLimit - usedTokens - request.input));
      }
      assert allowed == ByTokens(State(), request);
      if costLimit > 0.0 {
        if request.unit != currency || request.inPrice < 0.0 || request.outPrice < 0.0 {
          return true, allowed;
        }
        var remaining := costLimit - usedCost - request.input * request.inPrice / PER_MILLION;
        assert remaining == Remaining(State(), request);
        hide Remaining, ByTokens, Affordable;
        if remaining < 0.0 {
          allowed := 0;
        } else if request.outPrice > 0.0 {
          allowed := Min(allowed, Min(OUTPUT_CAP, Affordable(remaining, request.outPrice)));
        }
      }
      missing := false;
    }

    method ReservationOf(request: Request, allowed: int) returns (reservation: Reservation)
      ensures reservation == ReservationFor(State(), request, allowed)
    {
      var price := (request.input * request.inPrice + allowed as real * request.outPrice) / PER_MILLION;
      reservation := Reservation(request.input + allowed as real, if costLimit > 0.0 then price else 0.0);
    }

    /** `output` is the request's output field afterwards. */
    method Reserve(request: Request, accepts: bool) returns (verdict: Verdict, output: int, reservation: Reservation)
      modifies this
      ensures (State(), verdict) == DoReserve(old(State()), request, accepts)
      ensures verdict.Granted? || verdict.NotPersisted? ==>
                && output == Allowed(old(State()), request)
                && reservation == ReservationFor(old(State()), request, output)
      ensures !(verdict.Granted? || verdict.NotPersisted?) ==> output == request.output && reservation == Reservation(0.0, 0.0)
    {
      hide PricesMissing, Allowed, ReservationFor;
      output, reservation := request.output, Reservation(0.0, 0.0);
      var missing, allowed := AllowedOutput(request);
      if missing {
        return NeedsPrices, output, reservation;
      }
      if failed || allowed < 1 {
        return if failed then JournalFailed else Exhausted, output, reservation;
      }
      output := allowed;
      reservation := ReservationOf(request, allowed);
      usedTokens, usedCost := usedTokens + reservation.tokens, usedCost + reservation.cost;
      var ok := PersistNow(accepts);
      verdict := if ok then Granted else NotPersisted;
    }

    method Settle(reservation: Reservation, usage: Usage, accepts: bool) returns (ok: bool)
      modifies this
      ensures State() == DoSettle(old(State()), reservation, usage, accepts)
      ensures ok == SettledWell(State())
    {
      var oldTokens, oldCost := usedTokens, usedCost;
      if usage.usageKnown {
        usedTokens := usedTokens + (usage.inputTokens + usage.outputTokens - reservation.tokens);
      }
      if costLimit > 0.0 && usage.costKnown && usage.currency == currency {
        usedCost := usedCost + (usage.estimatedCost - reservation.cost);
      }
      ghost var counted := Corrected(old(State()), reservation, usage);
      assert usedTokens == counted.usedTokens && usedCost == counted.usedCost;
      hide Corrected;
      var persisted := PersistNow(accepts);
      if !persisted {
        usedTokens, usedCost := oldTokens, oldCost;
      }
      ok := !failed && (tokenLimit <= 0.0 || usedTokens <= tokenLimit) && (costLimit <= 0.0 || usedCost <= costLimit + COST_SLACK);
    }
  }
}
