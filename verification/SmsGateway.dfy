/** The shortcode gateway's per-sender token buckets. */
module SmsGateway {

  const SENDER_CAPACITY := 5.0
  const SENDER_RATE := 1.0 / 60.0

  datatype Bucket = Bucket(capacity: real, rate: real, tokens: real, lastRefill: real)

  function NewBucket(capacity: real, rate: real, created: real): Bucket {
    Bucket(capacity, rate, capacity, created)
  }

  function Min(a: real, b: real): real {
    if a <= b then a else b
  }

  function Refilled(b: Bucket, now: real): Bucket {
    b.(tokens := Min(b.capacity, b.tokens + (now - b.lastRefill) * b.rate), lastRefill := now)
  }

  /** Whether a call at `now` is accepted. */
  predicate Accepts(b: Bucket, now: real) {
    Refilled(b, now).tokens >= 1.0
  }

  function Consumed(b: Bucket, now: real): Bucket {
    var b' := Refilled(b, now);
    if Accepts(b, now) then b'.(tokens := b'.tokens - 1.0) else b'
  }

  /** The bucket after calls at these clock readings, in any order the clock gives them. */
  function After(b: Bucket, times: seq<real>): Bucket {
    if times == [] then b else Consumed(After(b, times[..|times| - 1]), times[|times| - 1])
  }

  predicate Accepted(b: Bucket, times: seq<real>, k: nat)
    requires k < |times|
  {
    Accepts(After(b, times[..k]), times[k])
  }

  /** The number of accepted calls among calls `i..j`. */
  function CountAccepted(b: Bucket, times: seq<real>, i: nat, j: nat): nat
    requires i <= j <= |times|
    decreases j
  {
    if i == j then 0 else CountAccepted(b, times, i, j - 1) + (if Accepted(b, times, j - 1) then 1 else 0)
  }

  /** What a window that starts with a full bucket at `start` still allows at call `j`. */
  function Allowance(b: Bucket, times: seq<real>, start: real, i: nat, j: nat): real
    requires i <= j < |times|
  {
    b.capacity + b.rate * (times[j] - start) - CountAccepted(b, times, i, j) as real
  }

  lemma {:induction false} AfterKeepsShape(b: Bucket, times: seq<real>)
    ensures var b' := After(b, times);
            b'.capacity == b.capacity && b'.rate == b.rate
            && b'.lastRefill == if times == [] then b.lastRefill else times[|times| - 1]
  {
    if times != [] {
      AfterKeepsShape(b, times[..|times| - 1]);
    }
  }

  /** The tokens available to call `j`, one call at a time. */
  function Available(b: Bucket, times: seq<real>, j: nat): real
    requires j < |times|
  {
    Refilled(After(b, times[..j]), times[j]).tokens
  }

  lemma AvailableStep(b: Bucket, times: seq<real>, j: nat)
    requires 0 < j < |times|
    ensures Available(b, times, j) ==
            Min(b.capacity, Available(b, times, j - 1) - (if Accepted(b, times, j - 1) then 1.0 else 0.0)
                + b.rate * (times[j] - times[j - 1]))
  {
    assert times[..j][..j - 1] == times[..j - 1];
    AfterKeepsShape(b, times[..j]);
    AfterKeepsShape(b, times[..j - 1]);
  }

  lemma AllowanceStep(b: Bucket, times: seq<real>, start: real, i: nat, j: nat)
    requires i < j < |times|
    ensures Allowance(b, times, start, i, j) ==
            Allowance(b, times, start, i, j - 1) - (if Accepted(b, times, j - 1) then 1.0 else 0.0)
              + b.rate * (times[j] - times[j - 1])
  {
    var c := b.rate;
    assert c * (times[j] - start) == c * (times[j - 1] - start) + c * (times[j] - times[j - 1]);
  }

  /** The window from call `i`, or at creation when `i` is -1. */
  function WindowAllowance(b: Bucket, times: seq<real>, i: int, j: nat): real
    requires -1 <= i <= j < |times|
  {
    if i == -1 then Allowance(b, times, b.lastRefill, 0, j) else Allowance(b, times, times[i], i, j)
  }

  /** A bucket, new at creation, has available exactly the least allowance over all windows. */
  lemma {:induction false} AvailableIsLeastAllowance(b: Bucket, times: seq<real>, j: nat)
    requires j < |times| && b.tokens == b.capacity
    ensures forall i :: -1 <= i <= j ==> Available(b, times, j) <= WindowAllowance(b, times, i, j)
    ensures exists i :: -1 <= i <= j && Available(b, times, j) == WindowAllowance(b, times, i, j)
  {
    if j == 0 {
      FirstAvailable(b, times);
      hide Available, WindowAllowance;
      var x, y := WindowAllowance(b, times, -1, j), WindowAllowance(b, times, 0, j);
      assert Available(b, times, j) == if y <= x then y else x;
    } else {
      hide Available, Allowance, Accepted;
      AvailableIsLeastAllowance(b, times, j - 1);
      AvailableStep(b, times, j);
      assert WindowAllowance(b, times, j, j) == b.capacity by { FreshWindow(b, times, j); }
      forall i | -1 <= i < j
        ensures WindowAllowance(b, times, i, j) ==
                WindowAllowance(b, times, i, j - 1) - (if Accepted(b, times, j - 1) then 1.0 else 0.0)
                  + b.rate * (times[j] - times[j - 1])
      {
        AllowanceStep(b, times, if i == -1 then b.lastRefill else times[i], if i == -1 then 0 else i, j);
      }
      var k :| -1 <= k <= j - 1 && Available(b, times, j - 1) == WindowAllowance(b, times, k, j - 1);
      assert Available(b, times, j) == WindowAllowance(b, times, j, j)
             || Available(b, times, j) == WindowAllowance(b, times, k, j);
    }
  }

  lemma FirstAvailable(b: Bucket, times: seq<real>)
    requires times != [] && b.tokens == b.capacity
    ensures Available(b, times, 0) == Min(WindowAllowance(b, times, 0, 0), WindowAllowance(b, times, -1, 0))
  {
    assert times[..0] == [];
    assert (times[0] - b.lastRefill) * b.rate == b.rate * (times[0] - b.lastRefill);
    FreshWindow(b, times, 0);
  }

  lemma FreshWindow(b: Bucket, times: seq<real>, j: nat)
    requires j < |times|
    ensures Allowance(b, times, times[j], j, j) == b.capacity
  {
    assert b.rate * (times[j] - times[j]) == 0.0;
  }

  /** The exact rule, for any clock readings: a call is accepted if and only if no window, from any
      earlier call, from itself, or from creation, is exhausted. */
  lemma AcceptedIffNoWindowExhausted(capacity: real, rate: real, created: real, times: seq<real>, j: nat)
    requires j < |times|
    ensures var b := NewBucket(capacity, rate, created);
            Accepted(b, times, j) <==> forall i :: -1 <= i <= j ==> WindowAllowance(b, times, i, j) >= 1.0
  {
    hide WindowAllowance, After, Refilled;
    var b := NewBucket(capacity, rate, created);
    AvailableIsLeastAllowance(b, times, j);
    var k :| -1 <= k <= j && Available(b, times, j) == WindowAllowance(b, times, k, j);
  }

  /** Rate limiting: the calls accepted from an accepted call `i` to an accepted call `j`, both
      included, number at most `capacity + rate * (t_j - t_i)`. */
  lemma WindowBound(capacity: real, rate: real, created: real, times: seq<real>, i: nat, j: nat)
    requires i <= j < |times|
    requires Accepted(NewBucket(capacity, rate, created), times, j)
    ensures CountAccepted(NewBucket(capacity, rate, created), times, i, j + 1) as real <=
            capacity + rate * (times[j] - times[i])
  {
    hide After, Accepted, Refilled;
    var b := NewBucket(capacity, rate, created);
    AcceptedIffNoWindowExhausted(capacity, rate, created, times, j);
    assert WindowAllowance(b, times, i, j) >= 1.0;
    var used := CountAccepted(b, times, i, j);
    assert CountAccepted(b, times, i, j + 1) == used + 1;
    assert capacity + rate * (times[j] - times[i]) - used as real >= 1.0;
  }

  // ---------------------------------------------------------------- senders

  /** One inbound message: its sender, the clock when a first bucket would be created, the clock of the check. */
  datatype Call = Call(sender: string, created: real, now: real)

  function BucketFor(buckets: map<string, Bucket>, call: Call): Bucket {
    if call.sender in buckets then buckets[call.sender] else NewBucket(SENDER_CAPACITY, SENDER_RATE, call.created)
  }

  function AfterCalls(calls: seq<Call>): map<string, Bucket> {
    if calls == [] then map[]
    else
      var call, before := calls[|calls| - 1], AfterCalls(calls[..|calls| - 1]);
      before[call.sender := Consumed(BucketFor(before, call), call.now)]
  }

  function CallsOf(calls: seq<Call>, sender: string): seq<Call> {
    if calls == [] then []
    else
      CallsOf(calls[..|calls| - 1], sender)
      + (if calls[|calls| - 1].sender == sender then [calls[|calls| - 1]] else [])
  }

  function Times(calls: seq<Call>): (ts: seq<real>)
    ensures |ts| == |calls| && forall i :: 0 <= i < |calls| ==> ts[i] == calls[i].now
  {
    seq(|calls|, i requires 0 <= i < |calls| => calls[i].now)
  }

  /** Each sender's bucket is the one its own calls alone would have made: no other sender's calls
      reach it. */
  lemma {:induction false} SendersAreIsolated(calls: seq<Call>, sender: string)
    ensures var own := CallsOf(calls, sender);
            && (sender in AfterCalls(calls) <==> own != [])
            && (own != [] ==>
                AfterCalls(calls)[sender] == After(NewBucket(SENDER_CAPACITY, SENDER_RATE, own[0].created), Times(own)))
  {
    if calls != [] {
      var front, call := calls[..|calls| - 1], calls[|calls| - 1];
      SendersAreIsolated(front, sender);
      if call.sender == sender {
        var own, own' := CallsOf(front, sender), CallsOf(calls, sender);
        var b := NewBucket(SENDER_CAPACITY, SENDER_RATE, own'[0].created);
        assert own' == own + [call];
        assert Times(own')[..|Times(own')| - 1] == Times(own);
        assert After(b, Times(own')) == Consumed(After(b, Times(own)), call.now);
      } else {
        assert CallsOf(calls, sender) == CallsOf(front, sender);
      }
    }
  }

  /** Whether call `k` of an interleaving is accepted. */
  predicate Admitted(calls: seq<Call>, k: nat)
    requires k < |calls|
  {
    Accepts(BucketFor(AfterCalls(calls[..k]), calls[k]), calls[k].now)
  }

  /** The number of a sender's accepted calls among calls `i..j` of an interleaving. */
  function CountAdmitted(calls: seq<Call>, sender: string, i: nat, j: nat): nat
    requires i <= j <= |calls|
    decreases j
  {
    if i == j then 0
    else
      CountAdmitted(calls, sender, i, j - 1)
      + (if calls[j - 1].sender == sender && Admitted(calls, j - 1) then 1 else 0)
  }

  /** Where call `k` stands among its sender's own calls. */
  function Position(calls: seq<Call>, sender: string, k: nat): nat
    requires k <= |calls|
  {
    |CallsOf(calls[..k], sender)|
  }

  lemma {:induction false} CallsOfTakes(calls: seq<Call>, sender: string, k: nat)
    requires k <= |calls|
    ensures CallsOf(calls[..k], sender) <= CallsOf(calls, sender)
  {
    if k == |calls| {
      assert calls[..k] == calls;
    } else {
      assert calls[..|calls| - 1][..k] == calls[..k];
      CallsOfTakes(calls[..|calls| - 1], sender, k);
    }
  }

  lemma PositionStep(calls: seq<Call>, sender: string, k: nat)
    requires k < |calls|
    ensures Position(calls, sender, k + 1) == Position(calls, sender, k) + if calls[k].sender == sender then 1 else 0
    ensures Position(calls, sender, k + 1) <= |CallsOf(calls, sender)|
    ensures calls[k].sender == sender ==> CallsOf(calls, sender)[Position(calls, sender, k)] == calls[k]
  {
    assert calls[..k + 1][..k] == calls[..k];
    CallsOfTakes(calls, sender, k + 1);
  }

  /** The bucket a sender's own calls, taken alone, begin with. */
  function OwnBucket(own: seq<Call>): Bucket
    requires own != []
  {
    NewBucket(SENDER_CAPACITY, SENDER_RATE, own[0].created)
  }

  /** A call of an interleaving is accepted exactly when it is accepted among its sender's own calls. */
  lemma AdmittedAlone(calls: seq<Call>, k: nat)
    requires k < |calls|
    ensures var own := CallsOf(calls, calls[k].sender); var p := Position(calls, calls[k].sender, k);
            && p < |own| && own[p] == calls[k]
            && (Admitted(calls, k) <==> Accepted(OwnBucket(own), Times(own), p))
  {
    hide After, AfterCalls, CallsOf, Accepts;
    var sender := calls[k].sender;
    var own, mine := CallsOf(calls, sender), CallsOf(calls[..k], sender);
    PositionStep(calls, sender, k);
    CallsOfTakes(calls, sender, k);
    SendersAreIsolated(calls[..k], sender);
    AfterNothing(OwnBucket(own));
    assert Times(own)[..|mine|] == Times(mine);
  }

  lemma AfterNothing(b: Bucket)
    ensures After(b, []) == b
  {
  }

  lemma {:induction false} CountAlone(calls: seq<Call>, sender: string, i: nat, j: nat)
    requires i <= j <= |calls|
    ensures var own, p, q := CallsOf(calls, sender), Position(calls, sender, i), Position(calls, sender, j);
            && p <= q <= |own|
            && CountAdmitted(calls, sender, i, j) ==
               if own == [] then 0 else CountAccepted(OwnBucket(own), Times(own), p, q)
    decreases j
  {
    hide Accepted, Admitted, CallsOf;
    if i == j {
      CallsOfTakes(calls, sender, j);
    } else {
      CountAlone(calls, sender, i, j - 1);
      PositionStep(calls, sender, j - 1);
      AdmittedAlone(calls, j - 1);
    }
  }

  /** Rate limiting per sender: whatever other senders do in between, the calls of one sender accepted from
      one of its calls `i` to an accepted call `j` of its own number at most five and one for each minute. */
  lemma SenderWindowBound(calls: seq<Call>, i: nat, j: nat)
    requires i <= j < |calls| && calls[i].sender == calls[j].sender && Admitted(calls, j)
    ensures CountAdmitted(calls, calls[j].sender, i, j + 1) as real <= 5.0 + (calls[j].now - calls[i].now) / 60.0
  {
    hide Accepted, Admitted, CallsOf;
    var sender := calls[j].sender;
    var own := CallsOf(calls, sender);
    AdmittedAlone(calls, i);
    AdmittedAlone(calls, j);
    CountAlone(calls, sender, i, j + 1);
    CountAlone(calls, sender, i, j);
    PositionStep(calls, sender, j);
    var p, q := Position(calls, sender, i), Position(calls, sender, j);
    WindowBound(SENDER_CAPACITY, SENDER_RATE, own[0].created, Times(own), p, q);
  }

  /** Accepting call `j` as well keeps the sender's calls from `i` on within five and one for each minute since. */
  predicate WithinRate(calls: seq<Call>, sender: string, i: nat, j: nat, since: real)
    requires i <= j < |calls|
  {
    CountAdmitted(calls, sender, i, j) as real + 1.0 <= 5.0 + (calls[j].now - since) / 60.0
  }

  /** The exact rule of the gateway, for any interleaving and any clock readings: a call is accepted if and only
      if that keeps the sender within its rate since each of its calls and since its bucket was created. */
  lemma AdmittedExactly(calls: seq<Call>, j: nat)
    requires j < |calls|
    ensures var sender := calls[j].sender;
            var own := CallsOf(calls, sender);
            && own != []
            && (Admitted(calls, j) <==>
                && WithinRate(calls, sender, 0, j, own[0].created)
                && forall i :: 0 <= i <= j && calls[i].sender == sender ==>
                     WithinRate(calls, sender, i, j, calls[i].now))
  {
    var sender := calls[j].sender;
    var own, q := CallsOf(calls, sender), Position(calls, sender, j);
    AdmittedAlone(calls, j);
    AllWindowsOpen(own, q);
    hide *;
    WindowSinceCreation(calls, j);
    forall i | 0 <= i <= j && calls[i].sender == sender
      ensures Position(calls, sender, i) <= q
      ensures WithinRate(calls, sender, i, j, calls[i].now) <==> Open(own, Position(calls, sender, i), q)
    {
      WindowSince(calls, i, j);
    }
    if !Admitted(calls, j) && Open(own, -1, q) {
      var p :| 0 <= p <= q && !Open(own, p, q);
      var i := PlaceOf(calls, sender, j, p);
      assert !WithinRate(calls, sender, i, j, calls[i].now);
    }
  }

  /** The window of a sender's own calls from call `p`, or from creation, is not exhausted at call `q`. */
  predicate Open(own: seq<Call>, p: int, q: nat)
    requires -1 <= p <= q < |own|
  {
    WindowAllowance(OwnBucket(own), Times(own), p, q) >= 1.0
  }

  lemma AllWindowsOpen(own: seq<Call>, q: nat)
    requires q < |own|
    ensures Accepted(OwnBucket(own), Times(own), q) <==> forall p :: -1 <= p <= q ==> Open(own, p, q)
  {
    hide Accepted, WindowAllowance;
    AcceptedIffNoWindowExhausted(SENDER_CAPACITY, SENDER_RATE, own[0].created, Times(own), q);
    forall p | -1 <= p <= q
      ensures Open(own, p, q) <==> WindowAllowance(OwnBucket(own), Times(own), p, q) >= 1.0
    {
    }
    if p :| -1 <= p <= q && WindowAllowance(OwnBucket(own), Times(own), p, q) < 1.0 {
      assert !Open(own, p, q);
    }
  }

  lemma WindowSince(calls: seq<Call>, i: nat, j: nat)
    requires i <= j < |calls| && calls[i].sender == calls[j].sender
    ensures var sender := calls[j].sender;
            var own, p, q := CallsOf(calls, sender), Position(calls, sender, i), Position(calls, sender, j);
            && p <= q < |own|
            && (WithinRate(calls, sender, i, j, calls[i].now) <==> Open(own, p, q))
  {
    hide Accepted, Admitted, CallsOf, CountAdmitted, CountAccepted, Position;
    AdmittedAlone(calls, i);
    AdmittedAlone(calls, j);
    CountAlone(calls, calls[j].sender, i, j);
  }

  lemma WindowSinceCreation(calls: seq<Call>, j: nat)
    requires j < |calls|
    ensures var sender := calls[j].sender;
            var own, q := CallsOf(calls, sender), Position(calls, sender, j);
            && q < |own|
            && (WithinRate(calls, sender, 0, j, own[0].created) <==> Open(own, -1, q))
  {
    assert Position(calls, calls[j].sender, 0) == 0 by { assert calls[..0] == []; }
    hide Accepted, Admitted, CallsOf, CountAdmitted, CountAccepted, Position;
    AdmittedAlone(calls, j);
    CountAlone(calls, calls[j].sender, 0, j);
  }

  /** Each of a sender's own calls stands somewhere in the interleaving. */
  lemma PlaceOf(calls: seq<Call>, sender: string, j: nat, p: nat) returns (i: nat)
    requires j < |calls| && calls[j].sender == sender && p <= Position(calls, sender, j)
    ensures i <= j && calls[i].sender == sender && Position(calls, sender, i) == p
  {
    i := j;
    while Position(calls, sender, i) != p || calls[i].sender != sender
      invariant i <= j && p <= Position(calls, sender, i)
      invariant calls[i].sender != sender ==> p < Position(calls, sender, i)
      decreases i
    {
      hide CallsOf, Position;
      assert i > 0 by { NothingBefore(calls, sender); }
      PositionStep(calls, sender, i - 1);
      i := i - 1;
    }
  }

  lemma NothingBefore(calls: seq<Call>, sender: string)
    ensures Position(calls, sender, 0) == 0
  {
    assert calls[..0] == [];
  }

  class TokenBucket {
    const capacity: real
    const rate: real
    var tokens: real
    var lastRefill: real

    function Abs(): Bucket
      reads this
    {
      Bucket(capacity, rate, tokens, lastRefill)
    }

    constructor (capacity: real, rate: real, created: real)
      ensures Abs() == NewBucket(capacity, rate, created)
    {
      this.capacity, this.rate, tokens, lastRefill := capacity, rate, capacity, created;
    }

    method Refill(now: real)
      modifies this
      ensures Abs() == Refilled(old(Abs()), now)
    {
      var elapsed := now - lastRefill;
      tokens := Min(capacity, tokens + elapsed * rate);
      lastRefill := now;
    }

    method TryConsume(now: real) returns (accepted: bool)
      modifies this
      ensures Abs() == Consumed(old(Abs()), now) && accepted == Accepts(old(Abs()), now)
    {
      Refill(now);
      if tokens >= 1.0 {
        tokens := tokens - 1.0;
        return true;
      }
      accepted := false;
    }
  }

  class Gateway {
    var buckets: map<string, TokenBucket>

    /** No two senders share a bucket object. */
    ghost predicate Valid()
      reads this
    {
      forall s, t :: s in buckets && t in buckets && s != t ==> buckets[s] != buckets[t]
    }

    ghost function Objects(): set<TokenBucket>
      reads this
    {
      set s | s in buckets :: buckets[s]
    }

    ghost function Abs(): map<string, Bucket>
      reads this, Objects()
    {
      map s | s in buckets :: buckets[s].Abs()
    }

    constructor ()
      ensures Valid() && Abs() == map[]
    {
      buckets := map[];
    }

    /** The rate limit of one inbound message. */
    method Admit(call: Call) returns (accepted: bool)
      requires Valid()
      modifies this, Objects()
      ensures Valid() && fresh(Objects() - old(Objects()))
      ensures Abs() == old(Abs())[call.sender := Consumed(BucketFor(old(Abs()), call), call.now)]
      ensures accepted == Accepts(BucketFor(old(Abs()), call), call.now)
    {
      if call.sender !in buckets {
        var bucket := new TokenBucket(SENDER_CAPACITY, SENDER_RATE, call.created);
        buckets := buckets[call.sender := bucket];
      }
      accepted := buckets[call.sender].TryConsume(call.now);
    }
  }
}
