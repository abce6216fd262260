/**
  Body-pressure counters shared by the connections of one shard, and the charges each connection
  owes them.
 */
module BodyLedger {
  import opened Bytes
  import Atomics

  datatype Surface = Request | Response

  datatype Meters = Meters(
    localCap: Option<nat>,
    sharedCap: Option<nat>,
    requestCurrent: nat,
    requestHigh: nat,
    responseCurrent: nat,
    responseHigh: nat,
    sharedHigh: nat,
    requestFull: nat,
    responseFull: nat,
    sharedFull: nat)

  function NewMeters(localCap: Option<nat>, sharedCap: Option<nat>): Meters {
    Meters(localCap, sharedCap, 0, 0, 0, 0, 0, 0, 0, 0)
  }

  /** Atomic adds wrap at the word size. */
  function Wrap(n: nat): nat {
    n % (USIZE_MAX + 1)
  }

  function Current(m: Meters, surface: Surface): nat {
    if surface.Request? then m.requestCurrent else m.responseCurrent
  }

  function SharedCurrent(m: Meters): nat {
    Wrap(m.requestCurrent + m.responseCurrent)
  }

  // --- The shared counters ----------------------------------------------------------------

  predicate OverCap(cap: Option<nat>, current: nat, n: nat) {
    cap.Some? && SaturatingAdd(current, n) > cap.value
  }

  /** Charging adds to the surface and pushes the high-water marks up. */
  function Charge(m: Meters, surface: Surface, n: nat): Meters {
    var next := Wrap(Current(m, surface) + n);
    var m1 := if surface.Request? then m.(requestCurrent := next, requestHigh := Max(m.requestHigh, next))
              else m.(responseCurrent := next, responseHigh := Max(m.responseHigh, next));
    m1.(sharedHigh := Max(m.sharedHigh, SharedCurrent(m1)))
  }

  /** `try_charge_*`: the surface's cap first, then the shared one; a refusal is only counted. */
  function TryCharge(m: Meters, surface: Surface, n: nat): (r: (Meters, bool)) {
    if OverCap(m.localCap, Current(m, surface), n) then
      (if surface.Request? then m.(requestFull := m.requestFull + 1) else m.(responseFull := m.responseFull + 1), false)
    else if OverCap(m.sharedCap, SharedCurrent(m), n) then (m.(sharedFull := m.sharedFull + 1), false)
    else (Charge(m, surface, n), true)
  }

  function Release(m: Meters, surface: Surface, n: nat): Meters {
    var next := SaturatingSub(Current(m, surface), n);
    if surface.Request? then m.(requestCurrent := next) else m.(responseCurrent := next)
  }

  // --- One connection ---------------------------------------------------------------------

  /** What the connection owes on each surface; an unmetered one owes nothing. */
  datatype Owed = Owed(metered: bool, request: nat, response: nat)

  function On(o: Owed, surface: Surface): nat {
    if surface.Request? then o.request else o.response
  }

  function SetOn(o: Owed, surface: Surface, n: nat): Owed {
    if surface.Request? then o.(request := n) else o.(response := n)
  }

  /** `charge_request`, `charge_response`. */
  function ChargeFor(m: Meters, o: Owed, surface: Surface, n: nat): (r: (Meters, Owed, bool)) {
    if n == 0 || !o.metered then (m, o, true)
    else
      var (m1, ok) := TryCharge(m, surface, n);
      (m1, if ok then SetOn(o, surface, On(o, surface) + n) else o, ok)
  }

  /** `release_request`, `release_response`: never more than is owed. */
  function ReleaseFor(m: Meters, o: Owed, surface: Surface, n: nat): (r: (Meters, Owed)) {
    var take := Min(n, On(o, surface));
    if take == 0 then (m, o)
    else (if o.metered then Release(m, surface, take) else m, SetOn(o, surface, On(o, surface) - take))
  }

  /** `release_*_all` on both surfaces, and the same on drop. */
  function DropFor(m: Meters, o: Owed): (r: (Meters, Owed)) {
    var (m1, o1) := ReleaseFor(m, o, Request, o.request);
    ReleaseFor(m1, o1, Response, o1.response)
  }

  // --- The shard --------------------------------------------------------------------------

  /** The meters, what each connection owes, and the largest totals there ever were. */
  datatype Shard = Shard(m: Meters, conns: seq<Owed>, peakRequest: nat, peakResponse: nat, peakShared: nat)

  function Total(conns: seq<Owed>, surface: Surface): nat {
    if conns == [] then 0 else On(conns[0], surface) + Total(conns[1..], surface)
  }

  datatype Event =
    | Accept(metered: bool)
    | Charges(i: nat, surface: Surface, n: nat)
    | Releases(i: nat, surface: Surface, n: nat)
    | Drops(i: nat)

  /** What one connection owes on a surface is the length of its byte buffers, so it fits a word. */
  predicate Enabled(s: Shard, e: Event) {
    match e
    case Accept(_) => true
    case Charges(i, surface, n) => i < |s.conns| && On(s.conns[i], surface) + n <= USIZE_MAX
    case Releases(i, _, _) => i < |s.conns|
    case Drops(i) => i < |s.conns|
  }

  /** The bytes resident after an admitted charge fit a machine word. */
  predicate Fits(m: Meters, n: nat) {
    m.requestCurrent + m.responseCurrent + n <= USIZE_MAX
  }

  /** Unless the event is a metered charge that is admitted, there is nothing to fit. */
  predicate EventFits(s: Shard, e: Event)
    requires Enabled(s, e)
  {
    match e
    case Charges(i, surface, n) =>
      n > 0 && s.conns[i].metered && TryCharge(s.m, surface, n).1 ==> Fits(s.m, n)
    case _ => true
  }

  function WithPeaks(s: Shard): Shard {
    s.(peakRequest := Max(s.peakRequest, Total(s.conns, Request)),
       peakResponse := Max(s.peakResponse, Total(s.conns, Response)),
       peakShared := Max(s.peakShared, Total(s.conns, Request) + Total(s.conns, Response)))
  }

  function Step(s: Shard, e: Event): Shard
    requires Enabled(s, e)
  {
    match e
    case Accept(metered) => s.(conns := s.conns + [Owed(metered, 0, 0)])
    case Charges(i, surface, n) =>
      var (m, o, _) := ChargeFor(s.m, s.conns[i], surface, n);
      WithPeaks(s.(m := m, conns := s.conns[i := o]))
    case Releases(i, surface, n) =>
      var (m, o) := ReleaseFor(s.m, s.conns[i], surface, n);
      WithPeaks(s.(m := m, conns := s.conns[i := o]))
    case Drops(i) =>
      var (m, o) := DropFor(s.m, s.conns[i]);
      WithPeaks(s.(m := m, conns := s.conns[i := o]))
  }

  predicate UnderCap(cap: Option<nat>, n: nat) {
    cap.Some? ==> n <= cap.value
  }

  /** The ledger balances, the caps hold and the marks are the peaks. */
  ghost predicate Inv(s: Shard) {
    var m := s.m;
    && (forall i :: 0 <= i < |s.conns| && !s.conns[i].metered ==> s.conns[i].request == 0 == s.conns[i].response)
    && m.requestCurrent == Total(s.conns, Request) && m.responseCurrent == Total(s.conns, Response)
    && m.requestCurrent + m.responseCurrent <= USIZE_MAX
    && UnderCap(m.localCap, m.requestCurrent) && UnderCap(m.localCap, m.responseCurrent)
    && UnderCap(m.sharedCap, m.requestCurrent + m.responseCurrent)
    && m.requestHigh == s.peakRequest && m.responseHigh == s.peakResponse && m.sharedHigh == s.peakShared
    && m.requestCurrent <= s.peakRequest && m.responseCurrent <= s.peakResponse
    && m.requestCurrent + m.responseCurrent <= s.peakShared
  }

  lemma {:induction false} StartInv(localCap: Option<nat>, sharedCap: Option<nat>)
    ensures Inv(Shard(NewMeters(localCap, sharedCap), [], 0, 0, 0))
  {
  }

  lemma {:induction false} TotalUpdate(conns: seq<Owed>, i: nat, o: Owed, surface: Surface)
    requires i < |conns|
    ensures Total(conns[i := o], surface) == Total(conns, surface) - On(conns[i], surface) + On(o, surface)
    ensures On(conns[i], surface) <= Total(conns, surface)
  {
    if i == 0 {
      assert conns[i := o][1..] == conns[1..];
    } else {
      assert conns[i := o][1..] == conns[1..][i - 1 := o];
      TotalUpdate(conns[1..], i - 1, o, surface);
    }
  }

  lemma {:induction false} TotalSnoc(conns: seq<Owed>, o: Owed, surface: Surface)
    ensures Total(conns + [o], surface) == Total(conns, surface) + On(o, surface)
  {
    if conns != [] {
      assert (conns + [o])[1..] == conns[1..] + [o];
      TotalSnoc(conns[1..], o, surface);
    }
  }

  lemma {:induction false} WrapFits(n: nat)
    requires n <= USIZE_MAX
    ensures Wrap(n) == n
  {
  }

  lemma {:induction false} AcceptKeeps(s: Shard, metered: bool)
    requires Inv(s)
    ensures Inv(Step(s, Accept(metered)))
  {
    TotalSnoc(s.conns, Owed(metered, 0, 0), Request);
    TotalSnoc(s.conns, Owed(metered, 0, 0), Response);
  }

  /** A cap at the word size or above refuses nothing: the saturated sum never passes it. */
  predicate Admits(cap: Option<nat>, sum: nat) {
    cap.None? || cap.value >= USIZE_MAX || sum <= cap.value
  }

  /** In a balanced shard, exactly when a charge is admitted; a refusal counts once and no more. */
  lemma {:induction false} AdmittedExactly(s: Shard, surface: Surface, n: nat)
    requires Inv(s)
    ensures TryCharge(s.m, surface, n).1
       <==> && Admits(s.m.localCap, Current(s.m, surface) + n)
            && Admits(s.m.sharedCap, s.m.requestCurrent + s.m.responseCurrent + n)
    ensures !TryCharge(s.m, surface, n).1 ==>
              var m := TryCharge(s.m, surface, n).0;
              m == if Admits(s.m.localCap, Current(s.m, surface) + n) then s.m.(sharedFull := s.m.sharedFull + 1)
                   else if surface.Request? then s.m.(requestFull := s.m.requestFull + 1)
                   else s.m.(responseFull := s.m.responseFull + 1)
  {
    hide Total, Charge;
    WrapFits(s.m.requestCurrent + s.m.responseCurrent);
    hide Wrap;
  }

  lemma {:induction false} ChargeUnwraps(s: Shard, surface: Surface, n: nat)
    requires Inv(s) && Fits(s.m, n)
    ensures var m := s.m;
            var next, total := Current(m, surface) + n, m.requestCurrent + m.responseCurrent + n;
            Charge(m, surface, n)
            == (if surface.Request? then m.(requestCurrent := next, requestHigh := Max(m.requestHigh, next))
                else m.(responseCurrent := next, responseHigh := Max(m.responseHigh, next)))
               .(sharedHigh := Max(m.sharedHigh, total))
  {
    hide Total;
    WrapFits(Current(s.m, surface) + n);
    WrapFits(s.m.requestCurrent + s.m.responseCurrent + n);
    hide Wrap;
  }

  /** An admitted charge that fits adds exactly its weight, within both caps, and raises the marks. */
  lemma {:induction false} ChargeIsExact(s: Shard, surface: Surface, n: nat)
    requires Inv(s) && Fits(s.m, n) && TryCharge(s.m, surface, n).1
    ensures var m := s.m;
            var next, total := Current(m, surface) + n, m.requestCurrent + m.responseCurrent + n;
            && TryCharge(m, surface, n).0
            == (if surface.Request? then m.(requestCurrent := next, requestHigh := Max(m.requestHigh, next))
                else m.(responseCurrent := next, responseHigh := Max(m.responseHigh, next)))
               .(sharedHigh := Max(m.sharedHigh, total))
            && UnderCap(m.localCap, next) && UnderCap(m.sharedCap, total)
  {
    hide Total, Charge, Wrap, Inv;
    AdmittedExactly(s, surface, n);
    ChargeUnwraps(s, surface, n);
  }

  lemma {:induction false} ChargesKeeps(s: Shard, i: nat, surface: Surface, n: nat)
    requires Inv(s) && Enabled(s, Charges(i, surface, n)) && EventFits(s, Charges(i, surface, n))
    ensures Inv(Step(s, Charges(i, surface, n)))
  {
    hide Total, Wrap, Charge;
    var (m, o, ok) := ChargeFor(s.m, s.conns[i], surface, n);
    TotalUpdate(s.conns, i, o, Request);
    TotalUpdate(s.conns, i, o, Response);
    if n != 0 && s.conns[i].metered && ok {
      hide TryCharge;
      ChargeIsExact(s, surface, n);
    }
  }

  /** An admitted charge that does not fit unbalances the ledger: the counter wraps. */
  lemma {:induction false} OverflowUnbalances(s: Shard, i: nat, surface: Surface, n: nat)
    requires Inv(s) && Enabled(s, Charges(i, surface, n)) && !EventFits(s, Charges(i, surface, n))
    ensures !Inv(Step(s, Charges(i, surface, n)))
  {
    hide Total, Wrap, TryCharge;
    var (m, o, ok) := ChargeFor(s.m, s.conns[i], surface, n);
    TotalUpdate(s.conns, i, o, Request);
    TotalUpdate(s.conns, i, o, Response);
  }

  /** The saturating subtraction never saturates: a connection releases only what is charged. */
  lemma {:induction false} ReleaseIsExact(s: Shard, i: nat, surface: Surface, n: nat)
    requires Inv(s) && i < |s.conns|
    ensures var (m, o) := ReleaseFor(s.m, s.conns[i], surface, n);
            && Current(m, surface) == Current(s.m, surface) - Min(n, On(s.conns[i], surface))
            && o == SetOn(s.conns[i], surface, On(s.conns[i], surface) - Min(n, On(s.conns[i], surface)))
  {
    TotalUpdate(s.conns, i, s.conns[i], surface);
  }

  /**
    A charge in a balanced shard: it fails exactly when the connection is metered, there is
    something to charge and a cap is passed; a metered one that does not fail owes it.
   */
  lemma {:induction false} ChargeIsOwed(s: Shard, i: nat, surface: Surface, n: nat)
    requires Inv(s) && i < |s.conns|
    ensures var o := s.conns[i];
            var (m, o', ok) := ChargeFor(s.m, o, surface, n);
            var fits := && Admits(s.m.localCap, Current(s.m, surface) + n)
                        && Admits(s.m.sharedCap, s.m.requestCurrent + s.m.responseCurrent + n);
            && (ok <==> !(o.metered && n > 0 && !fits))
            && o' == SetOn(o, surface, On(o, surface) + if o.metered && ok then n else 0)
  {
    AdmittedExactly(s, surface, n);
    hide Inv, TryCharge;
  }

  lemma {:induction false} ReleasesKeeps(s: Shard, i: nat, surface: Surface, n: nat)
    requires Inv(s) && i < |s.conns|
    ensures Inv(Step(s, Releases(i, surface, n)))
  {
    var (m, o) := ReleaseFor(s.m, s.conns[i], surface, n);
    ReleaseIsExact(s, i, surface, n);
    TotalUpdate(s.conns, i, o, Request);
    TotalUpdate(s.conns, i, o, Response);
  }

  lemma {:induction false} DropsKeeps(s: Shard, i: nat)
    requires Inv(s) && i < |s.conns|
    ensures Inv(Step(s, Drops(i)))
  {
    var r := s.conns[i].request;
    var s1 := Step(s, Releases(i, Request, r));
    ReleasesKeeps(s, i, Request, r);
    var s2 := Step(s1, Releases(i, Response, s1.conns[i].response));
    ReleasesKeeps(s1, i, Response, s1.conns[i].response);
    assert s2.conns == Step(s, Drops(i)).conns;
    assert s2.m == Step(s, Drops(i)).m;
    assert s2 == Step(s, Drops(i));
  }

  /** Every event keeps the ledger balanced, exactly unless it is a charge that does not fit. */
  lemma {:induction false} BalancedIffItFits(s: Shard, e: Event)
    requires Inv(s) && Enabled(s, e)
    ensures Inv(Step(s, e)) <==> EventFits(s, e)
  {
    hide Inv, Step;
    match e
    case Accept(metered) => AcceptKeeps(s, metered);
    case Charges(i, surface, n) =>
      if EventFits(s, e) {
        ChargesKeeps(s, i, surface, n);
      } else {
        OverflowUnbalances(s, i, surface, n);
      }
    case Releases(i, surface, n) => ReleasesKeeps(s, i, surface, n);
    case Drops(i) => DropsKeeps(s, i);
  }

  /** A shared cap below the word size is enough: it admits nothing that does not fit. */
  lemma {:induction false} CapBelowWordSuffices(s: Shard, e: Event)
    requires Inv(s) && Enabled(s, e) && s.m.sharedCap.Some? && s.m.sharedCap.value < USIZE_MAX
    ensures EventFits(s, e)
  {
    hide Total, Charge;
    WrapFits(s.m.requestCurrent + s.m.responseCurrent);
  }

  // --- Theorems ---------------------------------------------------------------------------

  function RunOf(localCap: Option<nat>, sharedCap: Option<nat>, events: seq<Event>): (s: Shard)
    ensures s.m.localCap == localCap && s.m.sharedCap == sharedCap
    decreases |events|
  {
    if events == [] then Shard(NewMeters(localCap, sharedCap), [], 0, 0, 0)
    else
      var last := |events| - 1;
      var s := RunOf(localCap, sharedCap, events[..last]);
      if Enabled(s, events[last]) then
        CapsKept(s, events[last]);
        Step(s, events[last])
      else s
  }

  /** Every admitted charge of the run fits a word at the moment it is made. */
  predicate RunFits(localCap: Option<nat>, sharedCap: Option<nat>, events: seq<Event>)
    decreases |events|
  {
    events == [] ||
    var last := |events| - 1;
    var s := RunOf(localCap, sharedCap, events[..last]);
    RunFits(localCap, sharedCap, events[..last]) && (Enabled(s, events[last]) ==> EventFits(s, events[last]))
  }

  /** The ledger is balanced after every event of the run. */
  ghost predicate BalancedThroughout(localCap: Option<nat>, sharedCap: Option<nat>, events: seq<Event>) {
    forall k :: 0 <= k <= |events| ==> Inv(RunOf(localCap, sharedCap, events[..k]))
  }

  lemma {:induction false} CapsKept(s: Shard, e: Event)
    requires Enabled(s, e)
    ensures Step(s, e).m.localCap == s.m.localCap && Step(s, e).m.sharedCap == s.m.sharedCap
  {
    hide Wrap, Total;
  }

  lemma {:induction false} BalancedBefore(localCap: Option<nat>, sharedCap: Option<nat>, events: seq<Event>)
    requires events != [] && BalancedThroughout(localCap, sharedCap, events)
    ensures BalancedThroughout(localCap, sharedCap, events[..|events| - 1])
    ensures Inv(RunOf(localCap, sharedCap, events))
  {
    hide RunOf, Inv;
    var first := events[..|events| - 1];
    forall k | 0 <= k <= |first|
      ensures Inv(RunOf(localCap, sharedCap, first[..k]))
    {
      assert first[..k] == events[..k];
    }
    assert events[..|events|] == events;
  }

  lemma {:induction false} BalancedAfter(localCap: Option<nat>, sharedCap: Option<nat>, events: seq<Event>)
    requires events != [] && BalancedThroughout(localCap, sharedCap, events[..|events| - 1])
    requires Inv(RunOf(localCap, sharedCap, events))
    ensures BalancedThroughout(localCap, sharedCap, events)
  {
    hide RunOf, Inv;
    var first := events[..|events| - 1];
    assert events[..|events|] == events;
    forall k | 0 <= k <= |events|
      ensures Inv(RunOf(localCap, sharedCap, events[..k]))
    {
      if k <= |first| {
        assert first[..k] == events[..k];
      }
    }
  }

  /**
    Over every run of a shard the ledger is balanced throughout if and only if every charge it
    admits fits a machine word; with a shared cap below the word size that is every run.
   */
  lemma {:induction false} LedgerBalancesExactly(localCap: Option<nat>, sharedCap: Option<nat>, events: seq<Event>)
    ensures BalancedThroughout(localCap, sharedCap, events) <==> RunFits(localCap, sharedCap, events)
    ensures sharedCap.Some? && sharedCap.value < USIZE_MAX ==> RunFits(localCap, sharedCap, events)
    decreases |events|
  {
    hide Inv, Step, EventFits;
    if events == [] {
      StartInv(localCap, sharedCap);
    } else {
      var last := |events| - 1;
      var first := events[..last];
      LedgerBalancesExactly(localCap, sharedCap, first);
      var s := RunOf(localCap, sharedCap, first);
      if BalancedThroughout(localCap, sharedCap, first) {
        assert first[..last] == first;
        assert Inv(RunOf(localCap, sharedCap, first[..last]));
        if Enabled(s, events[last]) {
          BalancedIffItFits(s, events[last]);
          if sharedCap.Some? && sharedCap.value < USIZE_MAX {
            CapBelowWordSuffices(s, events[last]);
          }
        }
        if Inv(RunOf(localCap, sharedCap, events)) {
          BalancedAfter(localCap, sharedCap, events);
        }
      }
      if BalancedThroughout(localCap, sharedCap, events) {
        BalancedBefore(localCap, sharedCap, events);
      }
    }
  }

  /**
    Conservation over every run whose charges fit: each shared counter is the sum of what the
    connections owe, both caps hold, the high-water marks are the running maxima, and once
    every connection has dropped its charges the counters are back at zero.
   */
  lemma {:induction false} LedgerBalances(localCap: Option<nat>, sharedCap: Option<nat>, events: seq<Event>)
    requires RunFits(localCap, sharedCap, events)
    ensures var s := RunOf(localCap, sharedCap, events);
            && s.m.requestCurrent == Total(s.conns, Request) && s.m.responseCurrent == Total(s.conns, Response)
            && UnderCap(localCap, s.m.requestCurrent) && UnderCap(localCap, s.m.responseCurrent)
            && UnderCap(sharedCap, s.m.requestCurrent + s.m.responseCurrent)
            && s.m.requestHigh == s.peakRequest && s.m.responseHigh == s.peakResponse && s.m.sharedHigh == s.peakShared
            && ((forall i :: 0 <= i < |s.conns| ==> s.conns[i].request == 0 == s.conns[i].response) ==>
                  s.m.requestCurrent == 0 && s.m.responseCurrent == 0)
  {
    LedgerBalancesExactly(localCap, sharedCap, events);
    hide RunOf, RunFits;
    assert events[..|events|] == events;
    assert Inv(RunOf(localCap, sharedCap, events[..|events|]));
    var s := RunOf(localCap, sharedCap, events);
    if forall i :: 0 <= i < |s.conns| ==> s.conns[i].request == 0 == s.conns[i].response {
      NothingOwed(s.conns, Request);
      NothingOwed(s.conns, Response);
    }
  }

  /** A connection charged a whole word, and one more that owes nothing yet. */
  const FULL: Shard :=
    Shard(Meters(None, None, USIZE_MAX, USIZE_MAX, 0, 0, USIZE_MAX, 0, 0, 0),
          [Owed(true, USIZE_MAX, 0), Owed(true, 0, 0)], USIZE_MAX, 0, USIZE_MAX)

  const FILL: seq<Event> := [Accept(true), Accept(true), Charges(0, Request, USIZE_MAX)]

  lemma {:induction false} TwoOwe(conns: seq<Owed>, surface: Surface)
    requires |conns| == 2
    ensures Total(conns, surface) == On(conns[0], surface) + On(conns[1], surface)
  {
    assert conns[1..][1..] == [];
    assert Total(conns[1..], surface) == On(conns[1], surface);
  }

  lemma {:induction false} FullRun()
    ensures RunOf(None, None, FILL) == FULL
  {
    var accept, most := Accept(true), Charges(0, Request, USIZE_MAX);
    assert FILL[..2] == [accept, accept] && [accept, accept][..1] == [accept] && [accept][..0] == [];
    var none, owed := [Owed(true, 0, 0), Owed(true, 0, 0)], [Owed(true, USIZE_MAX, 0), Owed(true, 0, 0)];
    var s1 := Shard(NewMeters(None, None), [Owed(true, 0, 0)], 0, 0, 0);
    var s2 := Shard(NewMeters(None, None), none, 0, 0, 0);
    assert RunOf(None, None, [accept]) == s1;
    assert s1.conns + [Owed(true, 0, 0)] == none;
    assert RunOf(None, None, [accept, accept]) == s2;
    WrapFits(USIZE_MAX);
    assert none[0 := owed[0]] == owed;
    assert ChargeFor(s2.m, none[0], Request, USIZE_MAX) == (FULL.m, owed[0], true);
    TwoOwe(owed, Request);
    TwoOwe(owed, Response);
    hide Total;
    assert Step(s2, most) == FULL;
  }

  /**
    Without caps, two connections that together hold one byte more than a word leave the counter
    at zero while both owe what they hold.
   */
  lemma {:induction false} UncappedChargeWraps()
    ensures var events := FILL + [Charges(1, Request, 1)];
            var s := RunOf(None, None, events);
            && s.m.requestCurrent == 0 && s.conns == [Owed(true, USIZE_MAX, 0), Owed(true, 1, 0)]
            && !RunFits(None, None, events) && !BalancedThroughout(None, None, events)
  {
    var more := Charges(1, Request, 1);
    var events := FILL + [more];
    assert events[..3] == FILL;
    FullRun();
    assert Wrap(USIZE_MAX + 1) == 0;
    assert FULL.conns[1 := Owed(true, 1, 0)] == [Owed(true, USIZE_MAX, 0), Owed(true, 1, 0)];
    assert RunOf(None, None, events) == Step(FULL, more);
    assert !EventFits(FULL, more);
    assert !RunFits(None, None, events);
    hide RunOf, RunFits, BalancedThroughout;
    LedgerBalancesExactly(None, None, events);
  }

  /** In a balanced shard a dropped connection gives back exactly what it owed, and owes nothing. */
  lemma {:induction false} DropGivesBackExactly(s: Shard, i: nat)
    requires Inv(s) && i < |s.conns|
    ensures var s' := Step(s, Drops(i));
            && s'.conns[i].request == 0 && s'.conns[i].response == 0
            && s'.m.requestCurrent == s.m.requestCurrent - s.conns[i].request
            && s'.m.responseCurrent == s.m.responseCurrent - s.conns[i].response
  {
    hide Total, Wrap;
    TotalUpdate(s.conns, i, s.conns[i], Request);
    TotalUpdate(s.conns, i, s.conns[i], Response);
  }

  lemma {:induction false} NothingOwed(conns: seq<Owed>, surface: Surface)
    requires forall i :: 0 <= i < |conns| ==> On(conns[i], surface) == 0
    ensures Total(conns, surface) == 0
  {
    if conns != [] {
      NothingOwed(conns[1..], surface);
    }
  }

  // --- The counters' object ---------------------------------------------------------------

  /** The shared counters, one atomic step at a time. */
  class BodyMetrics {
    const localCap: Option<nat>
    const sharedCap: Option<nat>
    var requestCurrent: nat
    var requestHigh: nat
    var responseCurrent: nat
    var responseHigh: nat
    var sharedHigh: nat
    var requestFull: nat
    var responseFull: nat
    var sharedFull: nat

    function Snapshot(): Meters
      reads this
    {
      Meters(localCap, sharedCap, requestCurrent, requestHigh, responseCurrent, responseHigh, sharedHigh,
             requestFull, responseFull, sharedFull)
    }

    constructor (localCap: Option<nat>, sharedCap: Option<nat>)
      ensures Snapshot() == NewMeters(localCap, sharedCap)
    {
      this.localCap, this.sharedCap := localCap, sharedCap;
      requestCurrent, requestHigh, responseCurrent, responseHigh := 0, 0, 0, 0;
      sharedHigh, requestFull, responseFull, sharedFull := 0, 0, 0, 0;
    }

    method ChargeSurface(surface: Surface, n: nat)
      modifies this
      ensures Snapshot() == Charge(old(Snapshot()), surface, n)
    {
      if surface.Request? {
        requestCurrent := Wrap(requestCurrent + n);
        var high := Atomics.RaiseAlone(requestHigh, requestCurrent);
        requestHigh := high;
      } else {
        responseCurrent := Wrap(responseCurrent + n);
        var high := Atomics.RaiseAlone(responseHigh, responseCurrent);
        responseHigh := high;
      }
      var shared := Atomics.RaiseAlone(sharedHigh, Wrap(requestCurrent + responseCurrent));
      sharedHigh := shared;
    }

    method TryChargeSurface(surface: Surface, n: nat) returns (ok: bool)
      modifies this
      ensures (Snapshot(), ok) == TryCharge(old(Snapshot()), surface, n)
    {
      var current := if surface.Request? then requestCurrent else responseCurrent;
      if localCap.Some? && SaturatingAdd(current, n) > localCap.value {
        if surface.Request? {
          requestFull := requestFull + 1;
        } else {
          responseFull := responseFull + 1;
        }
        return false;
      }
      if sharedCap.Some? && SaturatingAdd(Wrap(requestCurrent + responseCurrent), n) > sharedCap.value {
        sharedFull := sharedFull + 1;
        return false;
      }
      ChargeSurface(surface, n);
      ok := true;
    }

    method ReleaseSurface(surface: Surface, n: nat)
      modifies this
      ensures Snapshot() == Release(old(Snapshot()), surface, n)
    {
      if surface.Request? {
        var next := Atomics.SubtractAlone(requestCurrent, n);
        requestCurrent := next;
      } else {
        var next := Atomics.SubtractAlone(responseCurrent, n);
        responseCurrent := next;
      }
    }
  }

  /** The charge fields of one connection. */
  class ConnectionCharges {
    const metrics: BodyMetrics?
    var requestCharge: nat
    var responseCharge: nat

    function State(): Owed
      reads this
    {
      Owed(metrics != null, requestCharge, responseCharge)
    }

    constructor (metrics: BodyMetrics?)
      ensures State() == Owed(metrics != null, 0, 0) && this.metrics == metrics
    {
      this.metrics := metrics;
      requestCharge, responseCharge := 0, 0;
    }

    method ChargeBody(surface: Surface, n: nat) returns (ok: bool)
      modifies this, metrics
      ensures metrics == null ==> ok && State() == old(State())
      ensures metrics != null ==>
                (metrics.Snapshot(), State(), ok) == ChargeFor(old(metrics.Snapshot()), old(State()), surface, n)
    {
      ok := true;
      if n == 0 || metrics == null {
        return;
      }
      ok := metrics.TryChargeSurface(surface, n);
      if ok {
        if surface.Request? {
          requestCharge := requestCharge + n;
        } else {
          responseCharge := responseCharge + n;
        }
      }
    }

    method ReleaseBody(surface: Surface, n: nat)
      modifies this, metrics
      ensures metrics != null ==>
                (metrics.Snapshot(), State()) == ReleaseFor(old(metrics.Snapshot()), old(State()), surface, n)
      ensures State() == var o := old(State()); SetOn(o, surface, On(o, surface) - Min(n, On(o, surface)))
    {
      var take := Min(n, if surface.Request? then requestCharge else responseCharge);
      if take == 0 {
        return;
      }
      if metrics != null {
        metrics.ReleaseSurface(surface, take);
      }
      if surface.Request? {
        requestCharge := requestCharge - take;
      } else {
        responseCharge := responseCharge - take;
      }
    }

    /** Closing and dropping both give back everything owed. */
    method ReleaseAll()
      modifies this, metrics
      ensures metrics != null ==> (metrics.Snapshot(), State()) == DropFor(old(metrics.Snapshot()), old(State()))
      ensures requestCharge == 0 && responseCharge == 0
    {
      ReleaseBody(Request, requestCharge);
      ReleaseBody(Response, responseCharge);
    }
  }
}
