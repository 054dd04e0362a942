/** limit/token_bucket.go, over exact numbers, with the clock readings as arguments. The reference is not
    the bucket but its promise: a request may be granted when no window of time, however it is chosen,
    would see more than burst + rate * length tokens granted. */
module TokenBucket {

  /** A granted request: the latest clock reading so far, and the number of tokens. */
  datatype Grant = Grant(time: real, count: int)

  function Granted(log: seq<Grant>): real {
    if log == [] then 0.0 else log[0].count as real + Granted(log[1..])
  }

  function Later(a: real, b: real): real { if a < b then b else a }

  /** What flows in from time s to time t. */
  function Inflow(rate: real, s: real, t: real): real { rate * (t - s) }

  /** The most that may be granted from time s to time t. */
  function Allowance(rate: real, burst: real, s: real, t: real): real { burst + Inflow(rate, s, t) }

  /** What the window from grant j until t still allows. */
  function LeftIn(rate: real, burst: real, log: seq<Grant>, t: real, j: nat): real
    requires j < |log|
  {
    Allowance(rate, burst, log[j].time, t) - Granted(log[j..])
  }

  /** With n more tokens at time t, every window from an earlier grant until t keeps its allowance. */
  predicate Conforms(rate: real, burst: real, log: seq<Grant>, t: real, n: real) {
    n <= burst && forall j :: 0 <= j < |log| ==> n <= LeftIn(rate, burst, log, t, j)
  }

  predicate InOrder(log: seq<Grant>, t: real) {
    && (forall i :: 0 <= i < |log| ==> log[i].count > 0 && log[i].time <= t)
    && (forall i, j :: 0 <= i < j < |log| ==> log[i].time <= log[j].time)
  }

  /** What is in a bucket that is refilled continuously, up to its brim. */
  function Level(rate: real, burst: real, log: seq<Grant>, t: real): real {
    if log == [] then burst
    else
      var g := log[|log| - 1];
      var level := Level(rate, burst, log[..|log| - 1], g.time) - g.count as real + Inflow(rate, g.time, t);
      if level < burst then level else burst
  }

  lemma InflowAdds(rate: real, r: real, s: real, t: real)
    ensures Inflow(rate, r, s) + Inflow(rate, s, t) == Inflow(rate, r, t)
  {
  }

  lemma InflowGrows(rate: real, s: real, t: real)
    requires rate > 0.0 && s <= t
    ensures Inflow(rate, s, t) >= 0.0
  {
  }

  lemma InflowIs(rate: real, s: real, t: real)
    ensures Inflow(rate, s, t) == (t - s) * rate
    ensures s == t ==> Inflow(rate, s, t) == 0.0
  {
  }

  lemma LevelAfter(rate: real, burst: real, log: seq<Grant>, g: Grant)
    requires g.count > 0
    ensures Level(rate, burst, log + [g], g.time) == Level(rate, burst, log, g.time) - g.count as real
  {
    assert (log + [g])[..|log|] == log;
    InflowIs(rate, g.time, g.time);
    hide Inflow;
    assert Level(rate, burst, log, g.time) <= burst;
  }

  lemma {:induction false} GrantedSnoc(log: seq<Grant>, g: Grant)
    ensures Granted(log + [g]) == Granted(log) + g.count as real
  {
    if log == [] {
      assert log + [g] == [g] && [g][1..] == [];
    } else {
      assert (log + [g])[1..] == log[1..] + [g];
      GrantedSnoc(log[1..], g);
    }
  }

  /** Refilling lazily, whenever somebody looks, is refilling continuously. */
  lemma LazyRefill(rate: real, burst: real, log: seq<Grant>, s: real, t: real)
    requires rate > 0.0 && s <= t
    ensures var level := Level(rate, burst, log, s) + Inflow(rate, s, t);
            Level(rate, burst, log, t) == if level < burst then level else burst
  {
    hide Inflow;
    InflowGrows(rate, s, t);
    if log != [] {
      InflowAdds(rate, log[|log| - 1].time, s, t);
    }
  }

  /** The level is what the tightest window leaves: never more than any window allows ... */
  lemma {:induction false} LevelWithinWindows(rate: real, burst: real, log: seq<Grant>, t: real, j: nat)
    requires rate > 0.0 && InOrder(log, t) && j < |log|
    ensures Level(rate, burst, log, t) <= LeftIn(rate, burst, log, t, j)
    decreases |log|
  {
    hide Inflow;
    var g, before := log[|log| - 1], log[..|log| - 1];
    InflowAdds(rate, log[j].time, g.time, t);
    assert log[j..] == before[j..] + [g];
    GrantedSnoc(before[j..], g);
    if j == |log| - 1 {
      assert Level(rate, burst, before, g.time) <= burst;
      assert before[j..] == [];
    } else {
      LevelWithinWindows(rate, burst, before, g.time, j);
    }
  }

  /** ... and exactly what one of them allows, unless the bucket is full. */
  lemma {:induction false} LevelIsSomeWindow(rate: real, burst: real, log: seq<Grant>, t: real)
    requires rate > 0.0 && InOrder(log, t)
    ensures Level(rate, burst, log, t) == burst
            || exists j :: 0 <= j < |log| && Level(rate, burst, log, t) == LeftIn(rate, burst, log, t, j)
    decreases |log|
  {
    hide Inflow;
    if log != [] {
      var n := |log| - 1;
      var g, before := log[n], log[..n];
      LevelIsSomeWindow(rate, burst, before, g.time);
      if Level(rate, burst, log, t) != burst {
        if Level(rate, burst, before, g.time) == burst {
          assert log[n..] == [g] && [g][1..] == [];
          assert Granted(log[n..]) == g.count as real;
          assert Level(rate, burst, log, t) == LeftIn(rate, burst, log, t, n);
        } else {
          var j :| 0 <= j < |before|
                   && Level(rate, burst, before, g.time) == LeftIn(rate, burst, before, g.time, j);
          WindowGrows(rate, burst, log, t, j);
        }
      }
    }
  }

  /** The same window, one grant later. */
  lemma WindowGrows(rate: real, burst: real, log: seq<Grant>, t: real, j: nat)
    requires j < |log| - 1
    ensures var n := |log| - 1;
            var g, before := log[n], log[..n];
            LeftIn(rate, burst, log, t, j)
            == LeftIn(rate, burst, before, g.time, j) - g.count as real + Inflow(rate, g.time, t)
  {
    hide Inflow;
    var n := |log| - 1;
    var g, before := log[n], log[..n];
    InflowAdds(rate, log[j].time, g.time, t);
    assert log[j..] == before[j..] + [g];
    GrantedSnoc(before[j..], g);
  }

  /** The bucket holds enough exactly when the promise allows it. */
  lemma LevelDecides(rate: real, burst: real, log: seq<Grant>, t: real, n: real)
    requires rate > 0.0 && InOrder(log, t)
    ensures n <= Level(rate, burst, log, t) <==> Conforms(rate, burst, log, t, n)
  {
    hide Inflow;
    forall j | 0 <= j < |log|
      ensures Level(rate, burst, log, t) <= LeftIn(rate, burst, log, t, j)
    {
      LevelWithinWindows(rate, burst, log, t, j);
    }
    LevelIsSomeWindow(rate, burst, log, t);
  }

  /** Every request in the log conformed when it was granted. */
  predicate Promised(rate: real, burst: real, log: seq<Grant>)
  {
    forall k :: 0 <= k < |log| ==> Conforms(rate, burst, log[..k], log[k].time, log[k].count as real)
  }

  /** So no window of time ever sees more than its allowance, wherever it starts and ends. */
  lemma WindowBound(rate: real, burst: real, log: seq<Grant>, j: nat, k: nat, s: real, t: real)
    requires rate > 0.0 && burst > 0.0 && InOrder(log, t) && Promised(rate, burst, log)
    requires j <= k <= |log| && s <= t && (j < k ==> s <= log[j].time)
    ensures Granted(log[j..k]) <= Allowance(rate, burst, s, t)
  {
    hide Inflow;
    if j == k {
      assert log[j..k] == [];
      InflowGrows(rate, s, t);
    } else {
      var before, g := log[..k - 1], log[k - 1];
      assert log[j..k] == before[j..] + [g];
      GrantedSnoc(before[j..], g);
      assert Conforms(rate, burst, before, g.time, g.count as real);
      InflowAdds(rate, s, log[j].time, g.time);
      InflowAdds(rate, s, g.time, t);
      InflowGrows(rate, s, log[j].time);
      InflowGrows(rate, g.time, t);
      if j == k - 1 {
        assert before[j..] == [];
        assert Granted(before[j..]) == 0.0;
      } else {
        assert g.count as real <= LeftIn(rate, burst, before, g.time, j);
      }
    }
  }

  class TokenBucket {
    const rate: real
    const burst: real
    var tokens: real
    var lastRefill: real
    /** When the bucket was made, and everything it has granted. */
    ghost const start: real
    ghost var log: seq<Grant>

    ghost predicate Valid() reads this {
      && rate > 0.0 && burst > 0.0 && 0.0 <= tokens <= burst && start <= lastRefill
      && InOrder(log, lastRefill) && Promised(rate, burst, log) && (log != [] ==> start <= log[0].time)
      && tokens == Level(rate, burst, log, lastRefill)
    }

    constructor (rate: int, burst: int, now: real)
      requires rate > 0 && burst > 0
      ensures Valid() && this.rate == rate as real && this.burst == burst as real && log == []
      ensures start == lastRefill == now
    {
      this.rate, this.burst, tokens, lastRefill := rate as real, burst as real, burst as real, now;
      start, log := now, [];
    }

    /** NewTokenBucket: null stands for its errors. */
    static method New(rate: int, burst: int, now: real) returns (tb: TokenBucket?)
      ensures tb != null <==> rate > 0 && burst > 0
      ensures tb != null ==> fresh(tb) && tb.Valid() && tb.rate == rate as real && tb.burst == burst as real
                             && tb.log == [] && tb.start == tb.lastRefill == now
    {
      if rate <= 0 || burst <= 0 {
        return null;
      }
      tb := new TokenBucket(rate, burst, now);
    }

    /** A clock that has gone back, or not moved, refills nothing. */
    method Refill(now: real)
      requires Valid()
      modifies this`tokens, this`lastRefill
      ensures Valid() && lastRefill == Later(old(lastRefill), now)
    {
      hide Inflow, Level, Promised;
      var elapsed := now - lastRefill;
      if elapsed <= 0.0 {
        return;
      }
      LazyRefill(rate, burst, log, lastRefill, now);
      InflowGrows(rate, lastRefill, now);
      InflowIs(rate, lastRefill, now);
      tokens := tokens + elapsed * rate;
      if tokens > burst {
        tokens := burst;
      }
      lastRefill := now;
    }

    /** Grants exactly the requests that the promise allows. */
    method AllowN(count: int, now: real) returns (ok: bool)
      requires Valid()
      modifies this
      ensures Valid()
      ensures lastRefill == if count > 0 then Later(old(lastRefill), now) else old(lastRefill)
      ensures ok <==> count > 0 && Conforms(rate, burst, old(log), lastRefill, count as real)
      ensures log == old(log) + if ok then [Grant(lastRefill, count)] else []
    {
      hide Inflow, InOrder, Level, Promised, Conforms;
      if count <= 0 {
        return false;
      }
      Refill(now);
      LevelDecides(rate, burst, log, lastRefill, count as real);
      if count as real > tokens {
        return false;
      }
      tokens := tokens - count as real;
      ghost var before := log;
      log := log + [Grant(lastRefill, count)];
      LevelAfter(rate, burst, before, Grant(lastRefill, count));
      OrderedMore(before, Grant(lastRefill, count));
      PromisedMore(rate, burst, before, Grant(lastRefill, count));
      ok := true;
    }

    method Allow(now: real) returns (ok: bool)
      requires Valid()
      modifies this
      ensures Valid() && lastRefill == Later(old(lastRefill), now)
      ensures ok <==> Conforms(rate, burst, old(log), lastRefill, 1.0)
      ensures log == old(log) + if ok then [Grant(lastRefill, 1)] else []
    {
      ok := AllowN(1, now);
    }

    /** All that was ever granted is at most the burst and the rate times the advance of the clock. */
    lemma TotalBound()
      requires Valid()
      ensures Granted(log) <= burst + Inflow(rate, start, lastRefill)
    {
      hide Inflow, Level;
      assert log[0..|log|] == log;
      WindowBound(rate, burst, log, 0, |log|, start, lastRefill);
    }
  }

  lemma OrderedMore(log: seq<Grant>, g: Grant)
    requires InOrder(log, g.time) && g.count > 0
    ensures InOrder(log + [g], g.time)
  {
  }

  lemma PromisedMore(rate: real, burst: real, log: seq<Grant>, g: Grant)
    requires Promised(rate, burst, log) && Conforms(rate, burst, log, g.time, g.count as real)
    ensures Promised(rate, burst, log + [g])
  {
    var more := log + [g];
    forall k | 0 <= k < |more| ensures Conforms(rate, burst, more[..k], more[k].time, more[k].count as real) {
      assert more[..k] == log[..k];
      if k == |log| {
        assert log[..k] == log;
      }
    }
  }
}
