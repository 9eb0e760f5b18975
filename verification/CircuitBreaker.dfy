/** The breaker object: a map of mutable circuits behind one mutex. */
module CircuitBreakers {
  import opened Breaker
  import opened Clock

  class ScannerCircuit {
    var state: CircuitState
    var consecutiveFailures: int
    var openedAt: int
    var halfOpenInFlight: int

    constructor ()
      ensures View() == FRESH
    {
      state, consecutiveFailures, openedAt, halfOpenInFlight := Closed, 0, ZERO_TIME, 0;
    }

    function View(): Circuit
      reads this
    {
      Circuit(state, consecutiveFailures, openedAt, halfOpenInFlight)
    }

    method Admit(policy: Policy, now: int) returns (admitted: bool)
      modifies this
      ensures (View(), admitted) == Breaker.Allow(policy, old(View()), now)
    {
      match state {
        case Closed =>
          return true;
        case Open =>
          if Sub(now, openedAt) < policy.openDuration {
            return false;
          }
          state := HalfOpen;
          halfOpenInFlight := 0;
        case HalfOpen =>
      }
      if halfOpenInFlight >= policy.halfOpenMaxRequests {
        return false;
      }
      halfOpenInFlight := halfOpenInFlight + 1;
      return true;
    }

    method Succeed()
      modifies this
      ensures View() == Breaker.OnSuccess(old(View()))
    {
      match state {
        case HalfOpen =>
          if halfOpenInFlight > 0 {
            halfOpenInFlight := halfOpenInFlight - 1;
          }
          state := Closed;
          consecutiveFailures := 0;
          openedAt := ZERO_TIME;
        case Closed =>
          consecutiveFailures := 0;
        case Open =>
      }
    }

    method Fail(policy: Policy, now: int)
      modifies this
      ensures View() == Breaker.OnFailure(policy, old(View()), now)
      ensures old(state) != Open && state == Open ==> openedAt == now
    {
      match state {
        case HalfOpen =>
          if halfOpenInFlight > 0 {
            halfOpenInFlight := halfOpenInFlight - 1;
          }
          state := Open;
          openedAt := now;
          consecutiveFailures := policy.failureThreshold;
        case Closed =>
          consecutiveFailures := consecutiveFailures + 1;
          if consecutiveFailures >= policy.failureThreshold {
            state := Open;
            openedAt := now;
          }
        case Open =>
      }
    }
  }

  class CircuitBreaker {
    const policy: Policy
    var scanners: map<string, ScannerCircuit>

    /** No two scanners share a circuit object. */
    ghost predicate Valid()
      reads this
    {
      forall a, b :: a in scanners && b in scanners && a != b ==> scanners[a] != scanners[b]
    }

    ghost function View(): Circuits
      reads this, scanners.Values
    {
      map name | name in scanners :: scanners[name].View()
    }

    constructor (policy: Policy)
      ensures Valid() && View() == map[] && this.policy == policy
      ensures scanners.Values == {}
    {
      this.policy := policy;
      scanners := map[];
    }

    /** Registers a closed circuit on first use; the breaker is otherwise unchanged. */
    method GetOrCreate(name: string) returns (c: ScannerCircuit)
      requires Valid()
      modifies this
      ensures Valid() && name in scanners && scanners[name] == c
      ensures forall n :: n in old(scanners) ==> n in scanners && scanners[n] == old(scanners[n])
      ensures scanners.Keys == old(scanners.Keys) + {name}
      ensures fresh(scanners.Values - old(scanners.Values))
      ensures View() == old(View())[name := Lookup(old(View()), name)]
    {
      if name in scanners {
        c := scanners[name];
      } else {
        c := new ScannerCircuit();
        scanners := scanners[name := c];
      }
    }

    /** Whatever happened to one circuit object moved its own entry of the view and no other. */
    lemma OneCircuitMoved(before: Circuits, name: string, c: ScannerCircuit)
      requires name in scanners && scanners[name] == c && before.Keys == scanners.Keys
      requires forall n :: n in scanners && n != name ==> scanners[n].View() == before[n]
      ensures View() == before[name := c.View()]
    {
    }

    method Allow(name: string, now: int) returns (admitted: bool)
      requires Valid()
      modifies this, scanners.Values
      ensures Valid() && fresh(scanners.Values - old(scanners.Values))
      ensures View() == NextAll(policy, old(View()), NamedCall(name, AllowAt(now)))
      ensures admitted == Admits(policy, Lookup(old(View()), name), AllowAt(now))
    {
      var c := GetOrCreate(name);
      ghost var before := View();
      assert before[name] == c.View();
      admitted := c.Admit(policy, now);
      OneCircuitMoved(before, name, c);
    }

    method OnSuccess(name: string)
      requires Valid()
      modifies this, scanners.Values
      ensures Valid() && fresh(scanners.Values - old(scanners.Values))
      ensures View() == NextAll(policy, old(View()), NamedCall(name, Success))
    {
      var c := GetOrCreate(name);
      ghost var before := View();
      assert before[name] == c.View();
      c.Succeed();
      OneCircuitMoved(before, name, c);
    }

    method OnFailure(name: string, now: int)
      requires Valid()
      modifies this, scanners.Values
      ensures Valid() && fresh(scanners.Values - old(scanners.Values))
      ensures View() == NextAll(policy, old(View()), NamedCall(name, FailureAt(now)))
      ensures Lookup(old(View()), name).state != Open && View()[name].state == Open ==> View()[name].openedAt == now
    {
      var c := GetOrCreate(name);
      ghost var before := View();
      assert before[name] == c.View();
      c.Fail(policy, now);
      OneCircuitMoved(before, name, c);
    }
  }
}
