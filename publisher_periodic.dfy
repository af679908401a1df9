/**
 * The periodic publisher of an outbound data port. `write` stores samples
 * in the connector's buffer; on every period the periodic task runs `svc`, which
 * drains the buffer into the consumer under one of four push policies and
 * remembers the outcome in `retcode`. The buffer is a sample sequence with
 * a read index, the consumer an oracle, the listeners a log, and the
 * periodic task a flag.
 */
module PublisherPeriodic {
  import opened Common
  import opened DataPortStatusModel
  import PT = PortTypes
  import Props = Properties
  import Str = StringUtil

  type ByteData = PT.ByteData
  type Notice = PT.Notice

  /** How the consumer answers: its reply to the n-th put overall, of sample d. */
  type Reply = (nat, ByteData) -> DataPortStatus

  datatype PushPolicy = ALL | FIFO | SKIP | NEW

  /** A port status together with the notifications fired to produce it. */
  datatype Converted = Converted(status: DataPortStatus, notices: seq<Notice>)

  function Event(k: PT.DataListenerType, d: ByteData): Notice
  {
    PT.DataNotice(k, d)
  }

  // ---------------------------------------------------------------------
  // The two translation tables
  // ---------------------------------------------------------------------

  /**
   * `convertReturn`: buffer status to port status. FULL fires ON_BUFFER_FULL,
   * TIMEOUT fires ON_BUFFER_WRITE_TIMEOUT, nothing else fires anything.
   */
  function ConvertReturn(st: PT.BufferStatus, d: ByteData): (r: Converted)
    ensures r.status == PORT_OK <==> st == PT.OK
    ensures r.status == BUFFER_ERROR <==> st == PT.BUFFER_ERROR
    ensures r.status == BUFFER_FULL <==> st == PT.FULL
    ensures r.status == BUFFER_TIMEOUT <==> st == PT.TIMEOUT
    ensures r.status == PRECONDITION_NOT_MET <==> st == PT.PRECONDITION_NOT_MET
    ensures r.status == PORT_ERROR <==> st == PT.NOT_SUPPORTED || st == PT.EMPTY
    ensures st == PT.FULL ==> r.notices == [Event(PT.ON_BUFFER_FULL, d)]
    ensures st == PT.TIMEOUT ==> r.notices == [Event(PT.ON_BUFFER_WRITE_TIMEOUT, d)]
    ensures st != PT.FULL && st != PT.TIMEOUT ==> r.notices == []
  {
    match st
    case OK => Converted(PORT_OK, [])
    case BUFFER_ERROR => Converted(BUFFER_ERROR, [])
    case FULL => Converted(BUFFER_FULL, [Event(PT.ON_BUFFER_FULL, d)])
    case NOT_SUPPORTED => Converted(PORT_ERROR, [])
    case TIMEOUT => Converted(BUFFER_TIMEOUT, [Event(PT.ON_BUFFER_WRITE_TIMEOUT, d)])
    case PRECONDITION_NOT_MET => Converted(PRECONDITION_NOT_MET, [])
    case EMPTY => Converted(PORT_ERROR, [])
  }

  /** The statuses `invokeListener` hands back unchanged. */
  predicate PassedThrough(st: DataPortStatus)
  {
    st == PORT_ERROR || st == SEND_FULL || st == SEND_TIMEOUT || st == CONNECTION_LOST || st == UNKNOWN_ERROR
  }

  /**
   * `invokeListener`: a failed put fires exactly one receiver notification
   * and yields a status that is never PORT_OK.
   */
  function InvokeListener(st: DataPortStatus, d: ByteData): (r: Converted)
    ensures |r.notices| == 1 && r.status != PORT_OK
  {
    var kind := if st == SEND_FULL then PT.ON_RECEIVER_FULL
                else if st == SEND_TIMEOUT then PT.ON_RECEIVER_TIMEOUT
                else PT.ON_RECEIVER_ERROR;
    Converted(if PassedThrough(st) then st else PORT_ERROR, [Event(kind, d)])
  }

  /** The table of `invokeListener`: which notification each failure fires, and what it returns. */
  lemma InvokeListenerTable(st: DataPortStatus, d: ByteData)
    ensures var r := InvokeListener(st, d);
            && r.notices[0].DataNotice? && r.notices[0].data == d
            && (r.notices[0].dataKind == PT.ON_RECEIVER_FULL <==> st == SEND_FULL)
            && (r.notices[0].dataKind == PT.ON_RECEIVER_TIMEOUT <==> st == SEND_TIMEOUT)
            && (r.notices[0].dataKind == PT.ON_RECEIVER_ERROR <==> st != SEND_FULL && st != SEND_TIMEOUT)
            && (PassedThrough(st) ==> r.status == st)
            && (!PassedThrough(st) ==> r.status == PORT_ERROR)
  {
  }

  // ---------------------------------------------------------------------
  // Delivering a run of samples
  // ---------------------------------------------------------------------

  /** The consumer accepts s[j] when it is put as the (c+j)-th put. */
  predicate Accepts(reply: Reply, c: nat, s: seq<ByteData>, j: nat)
    requires j < |s|
  {
    reply(c + j, s[j]) == PORT_OK
  }

  /** How many of `s`, put from the c-th put on, the consumer accepts before the first refusal. */
  function OkRun(reply: Reply, c: nat, s: seq<ByteData>): (n: nat)
    ensures n <= |s|
    decreases |s|
  {
    if s == [] || reply(c, s[0]) != PORT_OK then 0 else 1 + OkRun(reply, c + 1, s[1..])
  }

  /** The run accepted is exactly the prefix before the first refused put. */
  lemma {:induction false} OkRunSpec(reply: Reply, c: nat, s: seq<ByteData>)
    ensures var n := OkRun(reply, c, s);
            && (forall i :: 0 <= i < n ==> Accepts(reply, c, s, i))
            && (n < |s| ==> reply(c + n, s[n]) != PORT_OK)
    decreases |s|
  {
    if s != [] && reply(c, s[0]) == PORT_OK {
      OkRunSpec(reply, c + 1, s[1..]);
      var n := OkRun(reply, c, s);
      forall i | 0 <= i < n
        ensures Accepts(reply, c, s, i)
      {
        if i > 0 {
          assert s[1..][i - 1] == s[i];
          assert Accepts(reply, c + 1, s[1..], i - 1);
        }
      }
      if n < |s| {
        assert s[1..][n - 1] == s[n];
      }
    }
  }

  /** Any run length with those two properties is the one OkRun computes. */
  lemma {:induction false} OkRunUnique(reply: Reply, c: nat, s: seq<ByteData>, n: nat)
    requires n <= |s|
    requires forall i :: 0 <= i < n ==> Accepts(reply, c, s, i)
    requires n < |s| ==> reply(c + n, s[n]) != PORT_OK
    ensures OkRun(reply, c, s) == n
    decreases n
  {
    if n > 0 {
      assert Accepts(reply, c, s, 0);
      var c1, t := c + 1, s[1..];
      forall i | 0 <= i < n - 1
        ensures Accepts(reply, c1, t, i)
      {
        assert Accepts(reply, c, s, i + 1);
      }
      if n < |s| {
        assert t[n - 1] == s[n];
      }
      OkRunUnique(reply, c1, t, n - 1);
    } else if s != [] {
      assert reply(c + 0, s[0]) != PORT_OK;
    }
  }

  /** The notifications of one accepted put: read, send, received. */
  function Accepted(d: ByteData): seq<Notice>
  {
    [Event(PT.ON_BUFFER_READ, d), Event(PT.ON_SEND, d), Event(PT.ON_RECEIVED, d)]
  }

  /** The notifications fired before the consumer's answer is known: read, send. */
  function Attempted(d: ByteData): seq<Notice>
  {
    [Event(PT.ON_BUFFER_READ, d), Event(PT.ON_SEND, d)]
  }

  function AcceptedAll(s: seq<ByteData>): (r: seq<Notice>)
    ensures |r| == 3 * |s|
  {
    if s == [] then [] else AcceptedAll(s[..|s| - 1]) + Accepted(s[|s| - 1])
  }

  lemma AcceptedAllSnoc(s: seq<ByteData>, d: ByteData)
    ensures AcceptedAll(s + [d]) == AcceptedAll(s) + Accepted(d)
  {
    assert (s + [d])[..|s|] == s;
  }

  /** What putting `s` one by one does: every put until the first refusal, which ends the run. */
  datatype Delivery = Delivery(puts: seq<ByteData>, delivered: nat, status: DataPortStatus, notices: seq<Notice>)

  function Deliver(reply: Reply, c: nat, s: seq<ByteData>): (r: Delivery)
    ensures r.delivered <= |s|
  {
    var n := OkRun(reply, c, s);
    if n == |s| then Delivery(s, n, PORT_OK, AcceptedAll(s))
    else
      var conv := InvokeListener(reply(c + n, s[n]), s[n]);
      Delivery(s[..n + 1], n, conv.status, AcceptedAll(s[..n]) + Attempted(s[n]) + conv.notices)
  }

  /**
   * Putting a run: on success every sample is put and acknowledged; on
   * failure the samples up to and including the refused one are put, the
   * accepted ones acknowledged, and the refusal reported through
   * `invokeListener`. The status is PORT_OK exactly when all were accepted.
   */
  lemma DeliverSpec(reply: Reply, c: nat, s: seq<ByteData>)
    ensures var r := Deliver(reply, c, s);
            && r.delivered == OkRun(reply, c, s)
            && (r.status == PORT_OK <==> r.delivered == |s|)
            && (r.delivered == |s| ==> r.puts == s && r.notices == AcceptedAll(s))
            && (r.delivered < |s| ==>
                  var conv := InvokeListener(reply(c + r.delivered, s[r.delivered]), s[r.delivered]);
                  && r.puts == s[..r.delivered + 1]
                  && r.status == conv.status
                  && r.notices == AcceptedAll(s[..r.delivered]) + Attempted(s[r.delivered]) + conv.notices)
  {
  }

  /** A refused delivery stops at the first refused sample, which it has put. */
  lemma DeliverRefused(reply: Reply, c: nat, s: seq<ByteData>)
    requires Deliver(reply, c, s).status != PORT_OK
    ensures var d := Deliver(reply, c, s);
            && d.delivered < |s| && |d.puts| == d.delivered + 1
            && d.puts[d.delivered] == s[d.delivered]
            && reply(c + d.delivered, s[d.delivered]) != PORT_OK
  {
    OkRunSpec(reply, c, s);
    DeliverSpec(reply, c, s);
  }

  /** A run whose i-th put is the first refused. */
  lemma DeliverStops(reply: Reply, c: nat, s: seq<ByteData>, i: nat)
    requires i < |s|
    requires forall j :: 0 <= j < i ==> Accepts(reply, c, s, j)
    requires reply(c + i, s[i]) != PORT_OK
    ensures var conv := InvokeListener(reply(c + i, s[i]), s[i]);
            Deliver(reply, c, s) == Delivery(s[..i + 1], i, conv.status, AcceptedAll(s[..i]) + Attempted(s[i]) + conv.notices)
  {
    OkRunUnique(reply, c, s, i);
  }

  /** The same, for a run known to be accepted up to i by its OkRun length. */
  lemma DeliverStopsAt(reply: Reply, c: nat, s: seq<ByteData>, i: nat)
    requires i < |s| && i <= OkRun(reply, c, s)
    requires reply(c + i, s[i]) != PORT_OK
    ensures var conv := InvokeListener(reply(c + i, s[i]), s[i]);
            Deliver(reply, c, s) == Delivery(s[..i + 1], i, conv.status, AcceptedAll(s[..i]) + Attempted(s[i]) + conv.notices)
  {
    OkRunSpec(reply, c, s);
    assert i < OkRun(reply, c, s) ==> Accepts(reply, c, s, i);
    DeliverSpec(reply, c, s);
  }

  /** An accepted put extends the known accepted run by one. */
  lemma OkRunGrows(reply: Reply, c: nat, s: seq<ByteData>, i: nat)
    requires i < |s| && i <= OkRun(reply, c, s)
    requires reply(c + i, s[i]) == PORT_OK
    ensures i + 1 <= OkRun(reply, c, s)
  {
    OkRunSpec(reply, c, s);
  }

  /** A run accepted in full, by its OkRun length. */
  lemma DeliverAllAt(reply: Reply, c: nat, s: seq<ByteData>)
    requires OkRun(reply, c, s) == |s|
    ensures Deliver(reply, c, s) == Delivery(s, |s|, PORT_OK, AcceptedAll(s))
  {
  }

  /** A run whose every put is accepted. */
  lemma DeliverAll(reply: Reply, c: nat, s: seq<ByteData>)
    requires forall j :: 0 <= j < |s| ==> Accepts(reply, c, s, j)
    ensures Deliver(reply, c, s) == Delivery(s, |s|, PORT_OK, AcceptedAll(s))
  {
    OkRunUnique(reply, c, s, |s|);
  }

  // ---------------------------------------------------------------------
  // The four push policies, as functions of the buffer before the tick
  // ---------------------------------------------------------------------

  /** A tick's effect: the samples put, the read index afterwards, the status, the notifications. */
  datatype Tick = Tick(puts: seq<ByteData>, rptr: nat, status: DataPortStatus, notices: seq<Notice>)

  /** `bufferIsEmpty()` reported an empty buffer: nothing happens. */
  function EmptyTick(rptr: nat): Tick
  {
    Tick([], rptr, BUFFER_EMPTY, [])
  }

  /** `pushAll`: put the readable samples oldest first, moving the read index past each accepted one. */
  function PushAllOutcome(samples: seq<ByteData>, rptr: nat, reply: Reply, c: nat, empty: bool): (r: Tick)
    requires rptr <= |samples|
    ensures empty ==> r.status == BUFFER_EMPTY && r.puts == [] && r.rptr == rptr
    ensures !empty ==> r.status != BUFFER_EMPTY
    ensures rptr <= r.rptr <= |samples|
  {
    if empty then EmptyTick(rptr)
    else
      var d := Deliver(reply, c, samples[rptr..]);
      Tick(d.puts, rptr + d.delivered, d.status, d.notices)
  }

  /** `pushFifo`: put the oldest readable sample, and consume it if it was accepted. */
  function PushFifoOutcome(samples: seq<ByteData>, rptr: nat, reply: Reply, c: nat, empty: bool): (r: Tick)
    requires empty || rptr < |samples|
    ensures empty ==> r.status == BUFFER_EMPTY && r.puts == [] && r.rptr == rptr
    ensures !empty ==> r.status != BUFFER_EMPTY
    ensures !empty ==> rptr <= r.rptr <= rptr + 1
  {
    if empty then EmptyTick(rptr)
    else
      var d := Deliver(reply, c, [samples[rptr]]);
      Tick(d.puts, rptr + d.delivered, d.status, d.notices)
  }

  /**
   * `pushNew`: move the read index to the newest stored sample (back over
   * an already read one when nothing is readable), put it, and consume it
   * if it was accepted.
   */
  function PushNewOutcome(samples: seq<ByteData>, rptr: nat, reply: Reply, c: nat, empty: bool): (r: Tick)
    requires rptr <= |samples| && (empty || |samples| > 0)
    ensures empty ==> r.status == BUFFER_EMPTY && r.puts == [] && r.rptr == rptr
    ensures !empty ==> r.status != BUFFER_EMPTY
    ensures !empty ==> |samples| - 1 <= r.rptr <= |samples|
  {
    if empty then EmptyTick(rptr)
    else
      var d := Deliver(reply, c, [samples[|samples| - 1]]);
      Tick(d.puts, |samples| - 1 + d.delivered, d.status, d.notices)
  }

  lemma DivUnique(n: nat, m: nat, q: nat, r: nat)
    requires m > 0 && r < m && n == q * m + r
    ensures n / m == q && n % m == r
  {
    var q' := n / m;
    var r' := n % m;
    assert n == q' * m + r';
    if q' < q {
      assert (q' + 1) * m <= q * m by { MulMono(q' + 1, q, m); }
      assert false;
    } else if q < q' {
      assert (q + 1) * m <= q' * m by { MulMono(q + 1, q', m); }
      assert false;
    }
  }

  /** Quotient and remainder after appending y to x, for divisor m. */
  lemma DivSplit(x: nat, y: nat, z: nat, m: nat)
    requires m > 0 && z == x + y
    ensures x % m < m
    ensures x / m + (y + x % m) / m == z / m
    ensures (y + x % m) % m == z % m
  {
    var q := x / m;
    var r := x % m;
    assert x == q * m + r;
    var q2 := (y + r) / m;
    var r2 := (y + r) % m;
    assert y + r == q2 * m + r2;
    assert x + y == (q + q2) * m + r2;
    DivUnique(z, m, q + q2, r2);
  }

  /** Offset from the tick's starting read index of the i-th sample `pushSkip` sends. */
  function SkipOffset(k: nat, l: nat, i: nat): nat
    requires l <= k
  {
    if i == 0 then k - l else SkipOffset(k, l, i - 1) + (k + 1)
  }

  /** The offsets in closed form: (k-l) + i(k+1). */
  lemma {:induction false} SkipOffsetClosed(k: nat, l: nat, i: nat)
    requires l <= k
    ensures SkipOffset(k, l, i) == (k - l) + i * (k + 1)
  {
    if i > 0 {
      SkipOffsetClosed(k, l, i - 1);
      assert i * (k + 1) == (i - 1) * (k + 1) + (k + 1);
    }
  }

  lemma MulMono(a: nat, b: nat, m: nat)
    requires a <= b
    ensures a * m <= b * m
  {
  }

  /** The first n groups of a tick with carry l end inside a readable region of r samples. */
  predicate Fits(r: nat, k: nat, l: nat, n: nat)
    requires l <= k
  {
    n == 0 || SkipOffset(k, l, n - 1) < r
  }

  /** Offsets grow with the index. */
  lemma {:induction false} SkipOffsetMono(k: nat, l: nat, i: nat, j: nat)
    requires l <= k && i <= j
    ensures SkipOffset(k, l, i) <= SkipOffset(k, l, j)
    decreases j
  {
    if i < j {
      SkipOffsetMono(k, l, i, j - 1);
    }
  }

  /** Every pass of a tick that fits stays inside the readable region. */
  lemma SkipPassInRange(r: nat, k: nat, l: nat, n: nat, i: nat)
    requires l <= k && Fits(r, k, l, n) && i < n
    ensures SkipOffset(k, l, i) < r
  {
    SkipOffsetMono(k, l, i, n - 1);
  }

  /**
   * With r readable samples and carry l, all floor((r+l)/(k+1)) groups of
   * a tick end inside the readable region.
   */
  lemma GroupsFit(r: nat, k: nat, l: nat, x: nat, n: nat)
    requires l <= k && x == r + l && n == x / (k + 1)
    ensures Fits(r, k, l, n)
  {
    if n > 0 {
      assert n * (k + 1) <= x;
      assert n * (k + 1) == (n - 1) * (k + 1) + (k + 1);
      SkipOffsetClosed(k, l, n - 1);
    }
  }

  /** The first n samples `pushSkip` sends from the readable region u. */
  function SkipPicks(u: seq<ByteData>, k: nat, l: nat, n: nat): (r: seq<ByteData>)
    requires l <= k && Fits(|u|, k, l, n)
    ensures |r| == n
  {
    if n == 0 then []
    else SkipPicks(u, k, l, n - 1) + [u[SkipOffset(k, l, n - 1)]]
  }

  /** A prefix one longer is the prefix extended by the next element. */
  lemma TakeSnoc<T>(s: seq<T>, i: nat)
    requires i < |s|
    ensures s[..i + 1] == s[..i] + [s[i]]
  {
  }

  /** The picks of a shorter tick are a prefix of those of a longer one. */
  lemma {:induction false} SkipPicksPrefix(u: seq<ByteData>, k: nat, l: nat, n: nat, i: nat)
    requires l <= k && i < n && Fits(|u|, k, l, n)
    ensures SkipOffset(k, l, i) < |u|
    ensures SkipPicks(u, k, l, n)[..i] == SkipPicks(u, k, l, i)
    ensures SkipPicks(u, k, l, n)[..i + 1] == SkipPicks(u, k, l, i + 1)
    ensures SkipPicks(u, k, l, n)[i] == u[SkipOffset(k, l, i)]
    decreases n
  {
    SkipOffsetMono(k, l, i, n - 1);
    var p := SkipPicks(u, k, l, n - 1);
    var x := u[SkipOffset(k, l, n - 1)];
    assert SkipPicks(u, k, l, n) == p + [x];
    if i + 1 < n {
      SkipPicksPrefix(u, k, l, n - 1, i);
      assert (p + [x])[..i + 1] == p[..i + 1];
    } else {
      assert (p + [x])[..i + 1] == p + [x];
      assert p[..i] == p;
    }
    assert (p + [x])[..i] == p[..i];
  }

  /** The i-th pick is the readable sample at offset SkipOffset(k, l, i). */
  lemma SkipPickAt(u: seq<ByteData>, k: nat, l: nat, n: nat, i: nat)
    requires l <= k && i < n && Fits(|u|, k, l, n)
    ensures SkipOffset(k, l, i) < |u| && SkipPicks(u, k, l, n)[i] == u[SkipOffset(k, l, i)]
  {
    SkipPicksPrefix(u, k, l, n, i);
  }

  /**
   * The state of `pushSkip`'s loop between passes: the read index, the
   * next skip, the samples put and the notifications fired so far, and the
   * status of the last put.
   */
  datatype SkipPass = SkipPass(rptr: nat, postskip: nat, puts: seq<ByteData>, notices: seq<Notice>, status: DataPortStatus)

  /**
   * The remaining m passes of `pushSkip`'s loop, as the code runs them:
   * skip ahead by `postskip`, put the sample reached as put number
   * c + |puts|; on a refusal rewind the skip and stop, otherwise go on
   * with a skip of k+1. A pass that would read past the stored samples is
   * never reached (the loop count rules it out) and is taken as the end.
   */
  function SkipRun(samples: seq<ByteData>, reply: Reply, c: nat, k: nat, m: nat, s: SkipPass): (r: SkipPass)
    ensures |s.puts| <= |r.puts| <= |s.puts| + m
    ensures s.status != BUFFER_EMPTY ==> r.status != BUFFER_EMPTY
    decreases m
  {
    if m == 0 || s.rptr + s.postskip >= |samples| then s
    else
      var pos := s.rptr + s.postskip;
      var cdr := samples[pos];
      var st := reply(c + |s.puts|, cdr);
      if st != PORT_OK then
        var conv := InvokeListener(st, cdr);
        SkipPass(s.rptr, s.postskip, s.puts + [cdr], s.notices + Attempted(cdr) + conv.notices, conv.status)
      else
        SkipRun(samples, reply, c, k, m - 1, SkipPass(pos, k + 1, s.puts + [cdr], s.notices + Accepted(cdr), PORT_OK))
  }

  /**
   * `pushSkip` with skip count k and carry l: floor((r+l)/(k+1)) passes of
   * the loop over the r readable samples, starting with a skip of k-l. If
   * all puts are accepted the read index moves past the readable region
   * and the carry becomes (r+l) mod (k+1); a refusal leaves the read index
   * where the last pass rewound it and keeps the carry. The second
   * component is the new carry.
   */
  function PushSkipOutcome(samples: seq<ByteData>, rptr: nat, reply: Reply, c: nat, empty: bool, k: nat, l: nat): (r: (Tick, nat))
    requires rptr <= |samples| && l <= k
    ensures empty ==> r.0.status == BUFFER_EMPTY && r.0.puts == [] && r.0.rptr == rptr && r.1 == l
    ensures !empty ==> r.0.status != BUFFER_EMPTY
    ensures r.1 <= k
  {
    if empty then (EmptyTick(rptr), l)
    else
      var x := |samples[rptr..]| + l;
      var t := SkipRunTick(samples, SkipRun(samples, reply, c, k, x / (k + 1), SkipPass(rptr, k - l, [], [], PORT_OK)));
      WithCarry(t, x, k, l)
  }

  /**
   * The tick with the skip count the next tick starts from: what is left
   * of the last group after a successful tick, the old count after a refusal.
   */
  function WithCarry(t: Tick, x: nat, k: nat, l: nat): (r: (Tick, nat))
    requires l <= k
    ensures r.0 == t && r.1 <= k
    ensures t.status == PORT_OK ==> r.1 == x % (k + 1)
    ensures t.status != PORT_OK ==> r.1 == l
  {
    (t, if t.status == PORT_OK then x % (k + 1) else l)
  }

  /**
   * What a finished loop leaves: after a successful last pass the rest of
   * the readable region is skipped, after a refusal the read index stays
   * where the refused pass rewound it.
   */
  function SkipRunTick(samples: seq<ByteData>, f: SkipPass): Tick
  {
    if f.status == PORT_OK then Tick(f.puts, |samples|, PORT_OK, f.notices)
    else Tick(f.puts, f.rptr, f.status, f.notices)
  }

  /**
   * Delivering the n picks of the readable region as one run: all of them
   * accepted moves the read index to the end, otherwise it is left at the
   * last accepted pick (at rptr when none was).
   */
  function PicksTick(samples: seq<ByteData>, rptr: nat, reply: Reply, c: nat, k: nat, l: nat, n: nat): Tick
    requires rptr <= |samples| && l <= k && Fits(|samples[rptr..]|, k, l, n)
  {
    var d := Deliver(reply, c, SkipPicks(samples[rptr..], k, l, n));
    if d.delivered == n then Tick(d.puts, |samples|, d.status, d.notices)
    else
      var back := if d.delivered == 0 then 0 else SkipOffset(k, l, d.delivered - 1);
      Tick(d.puts, rptr + back, d.status, d.notices)
  }

  /**
   * The same tick described by what it selects rather than by the loop:
   * the samples at offsets SkipOffset(k, l, i) of the readable region are
   * delivered as one run.
   */
  function SkipByPicks(samples: seq<ByteData>, rptr: nat, reply: Reply, c: nat, k: nat, l: nat): (r: (Tick, nat))
    requires rptr <= |samples| && l <= k
    ensures r.1 <= k
    ensures r.0.status == PORT_OK ==> r.0.rptr == |samples| && r.1 == (|samples| - rptr + l) % (k + 1)
  {
    var x := |samples[rptr..]| + l;
    var n := x / (k + 1);
    GroupsFit(|samples[rptr..]|, k, l, x, n);
    WithCarry(PicksTick(samples, rptr, reply, c, k, l, n), x, k, l)
  }

  /** The loop's view of an accepted pass: the run still ahead shrinks by one pass. */
  lemma SkipLoopStep(samples: seq<ByteData>, reply: Reply, c: nat, k: nat, m: nat, i: nat, s: SkipPass, s': SkipPass, f: SkipPass)
    requires i < m && s.rptr + s.postskip < |samples|
    requires reply(c + |s.puts|, samples[s.rptr + s.postskip]) == PORT_OK
    requires var pos := s.rptr + s.postskip;
             s' == SkipPass(pos, k + 1, s.puts + [samples[pos]], s.notices + Accepted(samples[pos]), PORT_OK)
    requires f == SkipRun(samples, reply, c, k, m - i, s)
    ensures f == SkipRun(samples, reply, c, k, m - (i + 1), s')
  {
    SkipRunAccepted(samples, reply, c, k, m - i, s);
    assert m - i - 1 == m - (i + 1);
  }

  /** The loop's view of a refused pass: the run ends with it. */
  lemma SkipLoopRefused(samples: seq<ByteData>, reply: Reply, c: nat, k: nat, m: nat, i: nat, s: SkipPass, f: SkipPass,
                        cdr: ByteData, st: DataPortStatus)
    requires i < m && s.rptr + s.postskip < |samples| && cdr == samples[s.rptr + s.postskip]
    requires st == reply(c + |s.puts|, cdr) && st != PORT_OK
    requires f == SkipRun(samples, reply, c, k, m - i, s)
    ensures var conv := InvokeListener(st, cdr);
            && f.status == conv.status && f.rptr == s.rptr && f.puts == s.puts + [cdr]
            && f.notices == s.notices + Attempted(cdr) + conv.notices
  {
    SkipRunRefused(samples, reply, c, k, m - i, s);
  }

  lemma SkipRunRefused(samples: seq<ByteData>, reply: Reply, c: nat, k: nat, m: nat, s: SkipPass)
    requires m > 0 && s.rptr + s.postskip < |samples|
    requires reply(c + |s.puts|, samples[s.rptr + s.postskip]) != PORT_OK
    ensures var cdr := samples[s.rptr + s.postskip];
            var conv := InvokeListener(reply(c + |s.puts|, cdr), cdr);
            SkipRun(samples, reply, c, k, m, s)
              == SkipPass(s.rptr, s.postskip, s.puts + [cdr], s.notices + Attempted(cdr) + conv.notices, conv.status)
  {
  }

  /** One accepted pass of the loop: it goes on from the sample it put. */
  lemma SkipRunAccepted(samples: seq<ByteData>, reply: Reply, c: nat, k: nat, m: nat, s: SkipPass)
    requires m > 0 && s.rptr + s.postskip < |samples|
    requires reply(c + |s.puts|, samples[s.rptr + s.postskip]) == PORT_OK
    ensures var pos := s.rptr + s.postskip;
            SkipRun(samples, reply, c, k, m, s)
              == SkipRun(samples, reply, c, k, m - 1, SkipPass(pos, k + 1, s.puts + [samples[pos]], s.notices + Accepted(samples[pos]), PORT_OK))
  {
  }

  /**
   * Before pass i of a tick that selects the n picks of the readable
   * region from rptr: the first i picks were accepted, put and
   * acknowledged, and the next skip leads to the i-th pick.
   */
  predicate SkipPassAt(samples: seq<ByteData>, rptr: nat, reply: Reply, c: nat, k: nat, l: nat, n: nat, i: nat, s: SkipPass)
    requires rptr <= |samples| && l <= k && Fits(|samples[rptr..]|, k, l, n)
  {
    var picks := SkipPicks(samples[rptr..], k, l, n);
    && i <= n && i <= OkRun(reply, c, picks)
    && s.status == PORT_OK
    && s.postskip == (if i == 0 then k - l else k + 1)
    && s.rptr + s.postskip == rptr + SkipOffset(k, l, i)
    && s.puts == picks[..i] && s.notices == AcceptedAll(picks[..i])
  }

  /** The pass record after an accepted i-th pick. */
  function NextPass(samples: seq<ByteData>, rptr: nat, k: nat, l: nat, n: nat, i: nat): SkipPass
    requires rptr <= |samples| && l <= k && Fits(|samples[rptr..]|, k, l, n) && i < n
  {
    var picks := SkipPicks(samples[rptr..], k, l, n);
    SkipPass(rptr + SkipOffset(k, l, i), k + 1, picks[..i + 1], AcceptedAll(picks[..i + 1]), PORT_OK)
  }

  /** An accepted pass moves on to the next pick. */
  lemma SkipPassNext(samples: seq<ByteData>, rptr: nat, reply: Reply, c: nat, k: nat, l: nat, n: nat, i: nat, s: SkipPass)
    requires rptr <= |samples| && l <= k && Fits(|samples[rptr..]|, k, l, n)
    requires SkipPassAt(samples, rptr, reply, c, k, l, n, i, s) && i < n
    requires reply(c + i, SkipPicks(samples[rptr..], k, l, n)[i]) == PORT_OK
    ensures SkipPassAt(samples, rptr, reply, c, k, l, n, i + 1, NextPass(samples, rptr, k, l, n, i))
  {
    var picks := SkipPicks(samples[rptr..], k, l, n);
    OkRunGrows(reply, c, picks, i);
  }

  /** Before pass i the next skip lands on the i-th pick, and accepting it gives NextPass. */
  lemma NextPassFrom(samples: seq<ByteData>, rptr: nat, reply: Reply, c: nat, k: nat, l: nat, n: nat, i: nat, s: SkipPass)
    requires rptr <= |samples| && l <= k && Fits(|samples[rptr..]|, k, l, n)
    requires SkipPassAt(samples, rptr, reply, c, k, l, n, i, s) && i < n
    ensures var cdr := SkipPicks(samples[rptr..], k, l, n)[i];
            && s.rptr + s.postskip < |samples| && samples[s.rptr + s.postskip] == cdr
            && NextPass(samples, rptr, k, l, n, i)
               == SkipPass(s.rptr + s.postskip, k + 1, s.puts + [cdr], s.notices + Accepted(cdr), PORT_OK)
  {
    var picks := SkipPicks(samples[rptr..], k, l, n);
    SkipPickInSamples(samples, rptr, k, l, n, i);
    TakeSnoc(picks, i);
    AcceptedAllSnoc(picks[..i], picks[i]);
  }

  /** The loop's accepted pass is that step. */
  lemma SkipPassStep(samples: seq<ByteData>, rptr: nat, reply: Reply, c: nat, k: nat, l: nat, n: nat, i: nat, s: SkipPass)
    requires rptr <= |samples| && l <= k && Fits(|samples[rptr..]|, k, l, n)
    requires SkipPassAt(samples, rptr, reply, c, k, l, n, i, s) && i < n
    requires reply(c + i, SkipPicks(samples[rptr..], k, l, n)[i]) == PORT_OK
    ensures SkipRun(samples, reply, c, k, n - i, s) == SkipRun(samples, reply, c, k, n - (i + 1), NextPass(samples, rptr, k, l, n, i))
  {
    NextPassFrom(samples, rptr, reply, c, k, l, n, i, s);
    assert |s.puts| == i;
    SkipRunAccepted(samples, reply, c, k, n - i, s);
    assert n - i - 1 == n - (i + 1);
  }

  /** A refused pass ends the loop with what delivering the picks gives. */
  lemma SkipPassStop(samples: seq<ByteData>, rptr: nat, reply: Reply, c: nat, k: nat, l: nat, n: nat, i: nat, s: SkipPass)
    requires rptr <= |samples| && l <= k && Fits(|samples[rptr..]|, k, l, n)
    requires SkipPassAt(samples, rptr, reply, c, k, l, n, i, s) && i < n
    requires reply(c + i, SkipPicks(samples[rptr..], k, l, n)[i]) != PORT_OK
    ensures SkipRunTick(samples, SkipRun(samples, reply, c, k, n - i, s)) == PicksTick(samples, rptr, reply, c, k, l, n)
  {
    var picks := SkipPicks(samples[rptr..], k, l, n);
    SkipPickInSamples(samples, rptr, k, l, n, i);
    var cdr := picks[i];
    var conv := InvokeListener(reply(c + i, cdr), cdr);
    SkipRunRefused(samples, reply, c, k, n - i, s);
    TakeSnoc(picks, i);
    var notices := AcceptedAll(picks[..i]) + Attempted(cdr) + conv.notices;
    assert SkipRun(samples, reply, c, k, n - i, s) == SkipPass(s.rptr, s.postskip, picks[..i + 1], notices, conv.status);
    DeliverStopsAt(reply, c, picks, i);
    var back := if i == 0 then 0 else SkipOffset(k, l, i - 1);
    assert s.rptr == rptr + back;
    assert PicksTick(samples, rptr, reply, c, k, l, n) == Tick(picks[..i + 1], rptr + back, conv.status, notices);
  }

  /** After the last pick the loop has nothing left to do and agrees with the delivery. */
  lemma SkipPassDone(samples: seq<ByteData>, rptr: nat, reply: Reply, c: nat, k: nat, l: nat, n: nat, i: nat, s: SkipPass)
    requires rptr <= |samples| && l <= k && Fits(|samples[rptr..]|, k, l, n)
    requires i == n && SkipPassAt(samples, rptr, reply, c, k, l, n, i, s)
    ensures SkipRunTick(samples, SkipRun(samples, reply, c, k, n - i, s)) == PicksTick(samples, rptr, reply, c, k, l, n)
  {
    var picks := SkipPicks(samples[rptr..], k, l, n);
    assert picks[..n] == picks;
    DeliverAllAt(reply, c, picks);
  }

  /**
   * From pass i on, the loop finishes the delivery of the picks: what it
   * ends with is what delivering all the picks as one run gives.
   */
  lemma {:induction false} SkipRunMatchesPicks(samples: seq<ByteData>, rptr: nat, reply: Reply, c: nat,
                                               k: nat, l: nat, n: nat, i: nat, s: SkipPass)
    requires rptr <= |samples| && l <= k && Fits(|samples[rptr..]|, k, l, n)
    requires SkipPassAt(samples, rptr, reply, c, k, l, n, i, s)
    ensures SkipRunTick(samples, SkipRun(samples, reply, c, k, n - i, s)) == PicksTick(samples, rptr, reply, c, k, l, n)
    decreases n - i
  {
    var picks := SkipPicks(samples[rptr..], k, l, n);
    if i == n {
      SkipPassDone(samples, rptr, reply, c, k, l, n, i, s);
    } else if reply(c + i, picks[i]) == PORT_OK {
      var s' := NextPass(samples, rptr, k, l, n, i);
      SkipPassNext(samples, rptr, reply, c, k, l, n, i, s);
      SkipPassStep(samples, rptr, reply, c, k, l, n, i, s);
      assert SkipRun(samples, reply, c, k, n - i, s) == SkipRun(samples, reply, c, k, n - (i + 1), s');
      SkipRunMatchesPicks(samples, rptr, reply, c, k, l, n, i + 1, s');
      assert SkipRunTick(samples, SkipRun(samples, reply, c, k, n - (i + 1), s')) == PicksTick(samples, rptr, reply, c, k, l, n);
    } else {
      SkipPassStop(samples, rptr, reply, c, k, l, n, i, s);
    }
  }

  /** Before the first pass nothing has been put and the first skip is k-l. */
  lemma SkipPassStart(samples: seq<ByteData>, rptr: nat, reply: Reply, c: nat, k: nat, l: nat, n: nat)
    requires rptr <= |samples| && l <= k && Fits(|samples[rptr..]|, k, l, n)
    ensures SkipPassAt(samples, rptr, reply, c, k, l, n, 0, SkipPass(rptr, k - l, [], [], PORT_OK))
  {
    var picks := SkipPicks(samples[rptr..], k, l, n);
    assert picks[..0] == [];
  }

  /** The n passes of the loop, from the start, deliver the picked samples. */
  lemma SkipRunFromStart(samples: seq<ByteData>, rptr: nat, reply: Reply, c: nat, k: nat, l: nat, n: nat)
    requires rptr <= |samples| && l <= k && Fits(|samples[rptr..]|, k, l, n)
    ensures SkipRunTick(samples, SkipRun(samples, reply, c, k, n, SkipPass(rptr, k - l, [], [], PORT_OK)))
            == PicksTick(samples, rptr, reply, c, k, l, n)
  {
    SkipPassStart(samples, rptr, reply, c, k, l, n);
    SkipRunMatchesPicks(samples, rptr, reply, c, k, l, n, 0, SkipPass(rptr, k - l, [], [], PORT_OK));
    assert n - 0 == n;
  }

  /** The skip outcome in the terms the policy lemmas state: its tick and its carry. */
  lemma SkipOutcomeParts(samples: seq<ByteData>, rptr: nat, reply: Reply, c: nat, k: nat, l: nat)
    requires rptr <= |samples| && l <= k
    ensures Fits(|samples[rptr..]|, k, l, (|samples| - rptr + l) / (k + 1))
    ensures var o := PushSkipOutcome(samples, rptr, reply, c, false, k, l);
            && o.0 == PicksTick(samples, rptr, reply, c, k, l, (|samples| - rptr + l) / (k + 1))
            && o.1 == (if o.0.status == PORT_OK then (|samples| - rptr + l) % (k + 1) else l)
  {
    var x := |samples[rptr..]| + l;
    var n := x / (k + 1);
    GroupsFit(|samples[rptr..]|, k, l, x, n);
    SkipRunFromStart(samples, rptr, reply, c, k, l, n);
  }

  /** The loop and the selection agree: `pushSkip` delivers exactly its picks. */
  lemma SkipOutcomeByPicks(samples: seq<ByteData>, rptr: nat, reply: Reply, c: nat, k: nat, l: nat)
    requires rptr <= |samples| && l <= k
    ensures PushSkipOutcome(samples, rptr, reply, c, false, k, l) == SkipByPicks(samples, rptr, reply, c, k, l)
  {
    SkipOutcomeParts(samples, rptr, reply, c, k, l);
  }

  /** `svc`'s dispatch: the policy's tick and the carry it leaves. */
  function PolicyOutcome(policy: PushPolicy, samples: seq<ByteData>, rptr: nat, reply: Reply, c: nat, empty: bool, k: nat, l: nat): (Tick, nat)
    requires rptr <= |samples| && (policy == SKIP ==> l <= k)
    requires policy == FIFO ==> empty || rptr < |samples|
    requires policy == NEW ==> empty || |samples| > 0
  {
    match policy
    case ALL => (PushAllOutcome(samples, rptr, reply, c, empty), l)
    case FIFO => (PushFifoOutcome(samples, rptr, reply, c, empty), l)
    case SKIP => PushSkipOutcome(samples, rptr, reply, c, empty, k, l)
    case NEW => (PushNewOutcome(samples, rptr, reply, c, empty), l)
  }

  // ---------------------------------------------------------------------
  // What the policies guarantee
  // ---------------------------------------------------------------------

  /**
   * `pushAll` puts in FIFO order, moves the read index only past accepted
   * samples, stops at the first refusal leaving that sample unread, and on
   * success leaves nothing readable.
   */
  lemma PushAllProperties(samples: seq<ByteData>, rptr: nat, reply: Reply, c: nat)
    requires rptr <= |samples|
    ensures var t := PushAllOutcome(samples, rptr, reply, c, false);
            var u := samples[rptr..];
            && t.puts <= u
            && t.rptr - rptr == OkRun(reply, c, u)
            && (forall i :: rptr <= i < t.rptr ==> reply(c + i - rptr, samples[i]) == PORT_OK)
            && (t.status == PORT_OK <==> t.rptr == |samples|)
            && (t.status != PORT_OK ==>
                  (|t.puts| == t.rptr - rptr + 1 && t.puts[|t.puts| - 1] == samples[t.rptr]
                   && reply(c + |t.puts| - 1, samples[t.rptr]) != PORT_OK))
  {
    PushAllShape(samples, rptr, reply, c);
    PushAllAccepts(samples, rptr, reply, c);
    var t := PushAllOutcome(samples, rptr, reply, c, false);
    if t.status != PORT_OK {
      PushAllRefusal(samples, rptr, reply, c);
    }
  }

  /** A `pushAll` whose every put is accepted drains the readable region. */
  lemma PushAllDrained(samples: seq<ByteData>, rptr: nat, reply: Reply, c: nat)
    requires rptr <= |samples| && OkRun(reply, c, samples[rptr..]) >= |samples| - rptr
    ensures var u := samples[rptr..];
            PushAllOutcome(samples, rptr, reply, c, false) == Tick(u, |samples|, PORT_OK, AcceptedAll(u))
  {
    DeliverAllAt(reply, c, samples[rptr..]);
  }

  /** A `pushAll` that is refused at the n-th readable sample. */
  lemma PushAllStopped(samples: seq<ByteData>, rptr: nat, reply: Reply, c: nat, n: nat)
    requires rptr + n < |samples| && n <= OkRun(reply, c, samples[rptr..])
    requires reply(c + n, samples[rptr..][n]) != PORT_OK
    ensures var u := samples[rptr..];
            var conv := InvokeListener(reply(c + n, u[n]), u[n]);
            PushAllOutcome(samples, rptr, reply, c, false)
              == Tick(u[..n + 1], rptr + n, conv.status, AcceptedAll(u[..n]) + Attempted(u[n]) + conv.notices)
  {
    DeliverStopsAt(reply, c, samples[rptr..], n);
  }

  /** `pushAll` puts a prefix of the readable region and consumes its accepted run. */
  lemma PushAllShape(samples: seq<ByteData>, rptr: nat, reply: Reply, c: nat)
    requires rptr <= |samples|
    ensures var t := PushAllOutcome(samples, rptr, reply, c, false);
            && t.puts <= samples[rptr..]
            && t.rptr - rptr == OkRun(reply, c, samples[rptr..])
            && (t.status == PORT_OK <==> t.rptr == |samples|)
  {
    DeliverSpec(reply, c, samples[rptr..]);
  }

  /** Every sample `pushAll` consumes was accepted. */
  lemma PushAllAccepts(samples: seq<ByteData>, rptr: nat, reply: Reply, c: nat)
    requires rptr <= |samples|
    ensures var t := PushAllOutcome(samples, rptr, reply, c, false);
            forall i :: rptr <= i < t.rptr ==> reply(c + i - rptr, samples[i]) == PORT_OK
  {
    var u := samples[rptr..];
    var n := Deliver(reply, c, u).delivered;
    OkRunSpec(reply, c, u);
    DeliverSpec(reply, c, u);
    forall i | rptr <= i < rptr + n
      ensures reply(c + i - rptr, samples[i]) == PORT_OK
    {
      assert Accepts(reply, c, u, i - rptr);
      assert u[i - rptr] == samples[i];
    }
  }

  /** A refusal in `pushAll` is its last put, and leaves the refused sample readable. */
  lemma PushAllRefusal(samples: seq<ByteData>, rptr: nat, reply: Reply, c: nat)
    requires rptr <= |samples|
    requires PushAllOutcome(samples, rptr, reply, c, false).status != PORT_OK
    ensures var t := PushAllOutcome(samples, rptr, reply, c, false);
            && t.rptr < |samples| && |t.puts| == t.rptr - rptr + 1 && t.puts[|t.puts| - 1] == samples[t.rptr]
            && reply(c + |t.puts| - 1, samples[t.rptr]) != PORT_OK
  {
    var u := samples[rptr..];
    var d := Deliver(reply, c, u);
    DeliverRefused(reply, c, u);
    assert u[d.delivered] == samples[rptr + d.delivered];
  }

  /** `pushFifo` consumes exactly the oldest sample when it is accepted, and nothing otherwise. */
  lemma PushFifoProperties(samples: seq<ByteData>, rptr: nat, reply: Reply, c: nat)
    requires rptr < |samples|
    ensures var t := PushFifoOutcome(samples, rptr, reply, c, false);
            && t.puts == [samples[rptr]]
            && (t.status == PORT_OK <==> reply(c, samples[rptr]) == PORT_OK)
            && (t.status == PORT_OK ==> t.rptr == rptr + 1)
            && (t.status != PORT_OK ==> t.rptr == rptr)
  {
    assert [samples[rptr]][..1] == [samples[rptr]];
    OkRunSpec(reply, c, [samples[rptr]]);
    DeliverSpec(reply, c, [samples[rptr]]);
  }

  /**
   * `pushNew` makes exactly one put, of the newest sample; on success
   * nothing is left readable, on failure the newest sample stays unread.
   */
  lemma PushNewProperties(samples: seq<ByteData>, rptr: nat, reply: Reply, c: nat)
    requires rptr <= |samples| && |samples| > 0
    ensures var t := PushNewOutcome(samples, rptr, reply, c, false);
            && t.puts == [samples[|samples| - 1]]
            && (t.status == PORT_OK <==> reply(c, samples[|samples| - 1]) == PORT_OK)
            && (t.status == PORT_OK ==> t.rptr == |samples|)
            && (t.status != PORT_OK ==> t.rptr == |samples| - 1)
  {
    assert [samples[|samples| - 1]][..1] == [samples[|samples| - 1]];
    OkRunSpec(reply, c, [samples[|samples| - 1]]);
    DeliverSpec(reply, c, [samples[|samples| - 1]]);
  }

  /** One `pushFifo` tick in explicit form: what sending the sample at the read index does. */
  lemma HeadTick(samples: seq<ByteData>, rptr: nat, reply: Reply, c: nat)
    requires rptr < |samples|
    ensures var cdr := samples[rptr];
            var st := reply(c, cdr);
            var conv := InvokeListener(st, cdr);
            PushFifoOutcome(samples, rptr, reply, c, false)
              == if st == PORT_OK then Tick([cdr], rptr + 1, PORT_OK, Accepted(cdr))
                 else Tick([cdr], rptr, conv.status, Attempted(cdr) + conv.notices)
  {
    var cdr := samples[rptr];
    if reply(c, cdr) == PORT_OK {
      DeliverAll(reply, c, [cdr]);
      assert AcceptedAll([cdr]) == Accepted(cdr);
    } else {
      DeliverStops(reply, c, [cdr], 0);
      assert [cdr][..1] == [cdr];
    }
  }

  /** `pushNew` is `pushFifo` with the read index moved to the newest sample. */
  lemma NewIsHeadOfNewest(samples: seq<ByteData>, rptr: nat, reply: Reply, c: nat)
    requires rptr <= |samples| && |samples| > 0
    ensures PushNewOutcome(samples, rptr, reply, c, false) == PushFifoOutcome(samples, |samples| - 1, reply, c, false)
  {
  }

  /** The i-th pick is the sample SkipOffset(i) past the read index. */
  lemma SkipPickInSamples(samples: seq<ByteData>, rptr: nat, k: nat, l: nat, n: nat, i: nat)
    requires rptr <= |samples| && l <= k && Fits(|samples[rptr..]|, k, l, n) && i < n
    ensures rptr + SkipOffset(k, l, i) < |samples|
    ensures SkipPicks(samples[rptr..], k, l, n)[i] == samples[rptr + SkipOffset(k, l, i)]
  {
    var u := samples[rptr..];
    SkipPickAt(u, k, l, n, i);
    assert u[SkipOffset(k, l, i)] == samples[rptr + SkipOffset(k, l, i)];
  }

  /** When every pick is accepted, the run puts exactly the picks and consumes the readable region. */
  lemma PicksTickAccepted(samples: seq<ByteData>, rptr: nat, reply: Reply, c: nat, k: nat, l: nat, n: nat)
    requires rptr <= |samples| && l <= k && Fits(|samples[rptr..]|, k, l, n)
    requires PicksTick(samples, rptr, reply, c, k, l, n).status == PORT_OK
    ensures var t := PicksTick(samples, rptr, reply, c, k, l, n);
            && |t.puts| == n && t.rptr == |samples|
            && (forall i :: 0 <= i < n ==>
                  (rptr + SkipOffset(k, l, i) < |samples| && t.puts[i] == samples[rptr + SkipOffset(k, l, i)]))
  {
    var picks := SkipPicks(samples[rptr..], k, l, n);
    DeliverSpec(reply, c, picks);
    forall i | 0 <= i < n
      ensures rptr + SkipOffset(k, l, i) < |samples| && picks[i] == samples[rptr + SkipOffset(k, l, i)]
    {
      SkipPickInSamples(samples, rptr, k, l, n, i);
    }
  }

  /**
   * When a pick is refused, it is the last one put, it lies inside the
   * readable region, and the read index is left at or before it.
   */
  lemma PicksTickRefused(samples: seq<ByteData>, rptr: nat, reply: Reply, c: nat, k: nat, l: nat, n: nat)
    requires rptr <= |samples| && l <= k && Fits(|samples[rptr..]|, k, l, n)
    requires PicksTick(samples, rptr, reply, c, k, l, n).status != PORT_OK
    ensures var t := PicksTick(samples, rptr, reply, c, k, l, n);
            var j := |t.puts| - 1;
            && 0 <= j < n
            && rptr + SkipOffset(k, l, j) < |samples|
            && t.puts[j] == samples[rptr + SkipOffset(k, l, j)]
            && t.rptr <= rptr + SkipOffset(k, l, j)
            && reply(c + j, t.puts[j]) != PORT_OK
  {
    var picks := SkipPicks(samples[rptr..], k, l, n);
    var d := Deliver(reply, c, picks);
    var j := d.delivered;
    DeliverRefused(reply, c, picks);
    SkipPickInSamples(samples, rptr, k, l, n, j);
    if j > 0 {
      SkipOffsetMono(k, l, j - 1, j);
    }
  }

  /**
   * `pushSkip` puts floor((r+l)/(k+1)) samples, the i-th at offset
   * (k-l)+i(k+1) from the starting read index, all inside the readable
   * region; on success it consumes exactly r samples and the new carry,
   * (r+l) mod (k+1), is at most k.
   */
  lemma PushSkipSuccess(samples: seq<ByteData>, rptr: nat, reply: Reply, c: nat, k: nat, l: nat)
    requires rptr <= |samples| && l <= k
    requires PushSkipOutcome(samples, rptr, reply, c, false, k, l).0.status == PORT_OK
    ensures var o := PushSkipOutcome(samples, rptr, reply, c, false, k, l);
            var t, l' := o.0, o.1;
            var r := |samples| - rptr;
            && |t.puts| == (r + l) / (k + 1)
            && (forall i :: 0 <= i < |t.puts| ==>
                  (rptr + SkipOffset(k, l, i) < |samples| && t.puts[i] == samples[rptr + SkipOffset(k, l, i)]))
            && t.rptr == rptr + r
            && l' == (r + l) % (k + 1) && l' <= k
  {
    SkipOutcomeParts(samples, rptr, reply, c, k, l);
    var n := (|samples| - rptr + l) / (k + 1);
    PicksTickAccepted(samples, rptr, reply, c, k, l, n);
    assert (|samples| - rptr + l) % (k + 1) <= k;
  }

  /**
   * A refused put in `pushSkip` ends the tick: the carry is kept and the
   * refused sample is left readable (the read index stays at or before it).
   */
  lemma PushSkipFailure(samples: seq<ByteData>, rptr: nat, reply: Reply, c: nat, k: nat, l: nat)
    requires rptr <= |samples| && l <= k
    requires PushSkipOutcome(samples, rptr, reply, c, false, k, l).0.status != PORT_OK
    ensures var o := PushSkipOutcome(samples, rptr, reply, c, false, k, l);
            var t, l' := o.0, o.1;
            var j := |t.puts| - 1;
            && l' == l
            && 0 <= j < (|samples| - rptr + l) / (k + 1)
            && rptr + SkipOffset(k, l, j) < |samples|
            && t.puts[j] == samples[rptr + SkipOffset(k, l, j)]
            && t.rptr <= rptr + SkipOffset(k, l, j)
            && reply(c + j, t.puts[j]) != PORT_OK
  {
    SkipOutcomeParts(samples, rptr, reply, c, k, l);
    var n := (|samples| - rptr + l) / (k + 1);
    var t := PicksTick(samples, rptr, reply, c, k, l, n);
    PicksTickRefused(samples, rptr, reply, c, k, l, n);
    var j := |t.puts| - 1;
    assert t.puts[j] == samples[rptr + SkipOffset(k, l, j)];
  }

  /**
   * Consecutive ticks over r1 and then r2 new samples send as many samples
   * in total as one tick over all r1+r2 of them, and leave the same carry;
   * the first tick's count n1 and carry l1 satisfy r1 + l == n1(k+1) + l1.
   */
  lemma SkipCounts(r1: nat, r2: nat, k: nat, l: nat)
    requires l <= k
    ensures var n1 := (r1 + l) / (k + 1);
            var l1 := (r1 + l) % (k + 1);
            && l1 <= k && r1 + l == n1 * (k + 1) + l1
            && n1 + (r2 + l1) / (k + 1) == (r1 + r2 + l) / (k + 1)
            && (r2 + l1) % (k + 1) == (r1 + r2 + l) % (k + 1)
  {
    DivSplit(r1 + l, r2, r1 + r2 + l, k + 1);
  }

  /**
   * The carry keeps the cadence across ticks: after a first tick over u1
   * that sends n1 samples and leaves carry l1 (r1 + l == n1(k+1) + l1, as
   * SkipCounts gives), a second tick over the next samples u2 sends exactly
   * the samples one tick over u1 + u2 sends after its first n1.
   */
  lemma SkipCadence(u1: seq<ByteData>, u2: seq<ByteData>, k: nat, l: nat, n1: nat, l1: nat, n2: nat)
    requires l <= k && l1 <= k && |u1| + l == n1 * (k + 1) + l1 && Fits(|u2|, k, l1, n2)
    ensures Fits(|u1|, k, l, n1) && Fits(|u1 + u2|, k, l, n1 + n2)
    ensures SkipPicks(u1 + u2, k, l, n1 + n2) == SkipPicks(u1, k, l, n1) + SkipPicks(u2, k, l1, n2)
  {
    if n1 > 0 {
      SkipOffsetClosed(k, l, n1 - 1);
      assert (n1 - 1) * (k + 1) + (k + 1) == n1 * (k + 1);
    }
    if n2 > 0 {
      SkipOffsetShift(k, l, l1, n1, n2 - 1, |u1|);
    }
    var a := SkipPicks(u1 + u2, k, l, n1 + n2);
    var b := SkipPicks(u1, k, l, n1) + SkipPicks(u2, k, l1, n2);
    forall i | 0 <= i < n1 + n2
      ensures a[i] == b[i]
    {
      SkipCadenceAt(u1, u2, k, l, l1, n1, n2, i);
    }
  }

  /** One position of SkipCadence: the i-th pick of the combined tick comes from the first or the second. */
  lemma SkipCadenceAt(u1: seq<ByteData>, u2: seq<ByteData>, k: nat, l: nat, l1: nat, n1: nat, n2: nat, i: nat)
    requires l <= k && l1 <= k && |u1| + l == n1 * (k + 1) + l1
    requires Fits(|u1|, k, l, n1) && Fits(|u2|, k, l1, n2) && Fits(|u1 + u2|, k, l, n1 + n2)
    requires i < n1 + n2
    ensures SkipPicks(u1 + u2, k, l, n1 + n2)[i] == (SkipPicks(u1, k, l, n1) + SkipPicks(u2, k, l1, n2))[i]
  {
    var off := SkipOffset(k, l, i);
    SkipPickAt(u1 + u2, k, l, n1 + n2, i);
    if i < n1 {
      SkipPickAt(u1, k, l, n1, i);
      assert (u1 + u2)[off] == u1[off];
    } else {
      var j := i - n1;
      SkipPickAt(u2, k, l1, n2, j);
      SkipOffsetShift(k, l, l1, n1, j, |u1|);
      assert (u1 + u2)[off] == u2[SkipOffset(k, l1, j)];
    }
  }

  /** Offsets of the second tick are those of the combined tick, shifted by the first tick's length. */
  lemma SkipOffsetShift(k: nat, l: nat, l1: nat, n1: nat, j: nat, r1: nat)
    requires l <= k && l1 <= k && r1 + l == n1 * (k + 1) + l1
    ensures SkipOffset(k, l, n1 + j) == r1 + SkipOffset(k, l1, j)
  {
    SkipOffsetClosed(k, l, n1 + j);
    SkipOffsetClosed(k, l1, j);
    assert (n1 + j) * (k + 1) == n1 * (k + 1) + j * (k + 1);
  }

  /** Skip count 2, no carry, nine readable samples: the samples at offsets 2, 5 and 8 are sent. */
  lemma SkipExample(u: seq<ByteData>)
    requires |u| == 9
    ensures (9 + 0) / 3 == 3 && (9 + 0) % 3 == 0
    ensures Fits(|u|, 2, 0, 3) && SkipPicks(u, 2, 0, 3) == [u[2], u[5], u[8]]
  {
    assert SkipOffset(2, 0, 1) == 5 && SkipOffset(2, 0, 2) == 8;
    var p := SkipPicks(u, 2, 0, 3);
    SkipPickAt(u, 2, 0, 3, 0);
    SkipPickAt(u, 2, 0, 3, 1);
    SkipPickAt(u, 2, 0, 3, 2);
    assert p == [p[0], p[1], p[2]];
  }

  // ---------------------------------------------------------------------
  // Configuration
  // ---------------------------------------------------------------------

  /** The policy selected by a normalised `publisher.push_policy` value; anything unknown means NEW. */
  function PolicyOf(name: string): (p: PushPolicy)
    ensures p == ALL <==> name == "all"
    ensures p == FIFO <==> name == "fifo"
    ensures p == SKIP <==> name == "skip"
    ensures p == NEW <==> name != "all" && name != "fifo" && name != "skip"
  {
    if name == "all" then ALL
    else if name == "fifo" then FIFO
    else if name == "skip" then SKIP
    else NEW
  }

  /** The skip count kept from a parse of `publisher.skip_count`: 0 when unparsable or negative. */
  function SkipCountOf(parsed: Option<int>): (n: nat)
    ensures parsed.None? ==> n == 0
    ensures parsed.Some? && parsed.value < 0 ==> n == 0
    ensures parsed.Some? && parsed.value >= 0 ==> n == parsed.value
  {
    match parsed
    case None => 0
    case Some(v) => if v < 0 then 0 else v
  }

  /** The policy names are matched after trimming and lower-casing: blanks at either end and letter case do not matter. */
  lemma PolicyNormalized(a: string, name: string, b: string)
    requires Str.AllBlank(a) && Str.AllBlank(b)
    ensures PolicyOf(Str.Normalize(a + name + b)) == PolicyOf(Str.Normalize(name))
    ensures PolicyOf(Str.Normalize(Str.ToLower(name))) == PolicyOf(Str.Normalize(name))
  {
    Str.NormalizePadding(a, name, b);
    Str.NormalizeLower(name);
  }

  /** The property keys `setPushPolicy` reads. */
  const PolicyKey: string := "publisher.push_policy"
  const SkipCountKey: string := "publisher.skip_count"

  /** The policy `setPushPolicy` selects: the normalised push_policy value, NEW when the property is absent or empty. */
  function ConfiguredPolicy(prop: Props.Node): (p: PushPolicy)
    ensures Props.GetProperty(prop, PolicyKey) == "" ==> p == NEW
    ensures Props.GetProperty(prop, PolicyKey) != "" ==> p == PolicyOf(Str.Normalize(Props.GetProperty(prop, PolicyKey)))
  {
    assert Str.EraseHeadBlank("new") == "new";
    assert Str.EraseTailBlank("new") == "new";
    assert Str.ToLower("new") == "new";
    PolicyOf(Str.Normalize(Props.GetPropertyOr(prop, PolicyKey, "new")))
  }

  /** The skip count `setPushPolicy` selects: the parsed skip_count value, 0 when absent or unparsable. */
  function ConfiguredSkipCount(prop: Props.Node, parseInt: string -> Option<int>): (n: nat)
    ensures var text := Props.GetPropertyOr(prop, SkipCountKey, "0");
            (parseInt(text).None? || parseInt(text).value < 0 ==> n == 0)
            && (parseInt(text).Some? && parseInt(text).value >= 0 ==> n == parseInt(text).value)
  {
    SkipCountOf(parseInt(Props.GetPropertyOr(prop, SkipCountKey, "0")))
  }

  // ---------------------------------------------------------------------
  // The publisher object
  // ---------------------------------------------------------------------

  class Publisher {
    var consumer: PT.InPortConsumer?
    var buffer: PT.CdrBuffer?
    var listeners: PT.ConnectorListeners?
    var profile: PT.ConnectorInfo
    var data: ByteData
    var retcode: DataPortStatus
    var pushPolicy: PushPolicy
    var skipn: nat
    var leftskip: nat
    var readback: bool
    var active: bool
    /** A task object exists (`m_task != nullptr`). */
    var hasTask: bool
    /** The periodic task is suspended, so `svc` is not being run. */
    var suspended: bool

    ghost predicate Valid()
      reads this, buffer
    {
      buffer != null ==> buffer.Valid()
    }

    /** Consumer, buffer and listeners are all set. */
    predicate Ready()
      reads this
    {
      consumer != null && buffer != null && listeners != null
    }

    constructor ()
      ensures Valid() && !Ready()
      ensures consumer == null && buffer == null && listeners == null
      ensures retcode == PORT_OK && pushPolicy == NEW && skipn == 0 && leftskip == 0
      ensures !readback && !active && !hasTask && suspended
    {
      consumer := null;
      buffer := null;
      listeners := null;
      profile := PT.ConnectorInfo("", "");
      data := PT.ByteData([], true);
      retcode := PORT_OK;
      pushPolicy := NEW;
      skipn := 0;
      leftskip := 0;
      readback := false;
      active := false;
      hasTask := false;
      suspended := true;
    }

    /** `setPushPolicy`: read the policy and the skip count from the properties. */
    method SetPushPolicy(prop: Props.Node, parseInt: string -> Option<int>)
      modifies this`pushPolicy, this`skipn
      ensures pushPolicy == ConfiguredPolicy(prop)
      ensures skipn == ConfiguredSkipCount(prop, parseInt)
    {
      var policy := Str.Normalize(Props.GetPropertyOr(prop, PolicyKey, "new"));
      if policy == "all" {
        pushPolicy := ALL;
      } else if policy == "fifo" {
        pushPolicy := FIFO;
      } else if policy == "skip" {
        pushPolicy := SKIP;
      } else {
        pushPolicy := NEW;
      }
      var skipCount := Props.GetPropertyOr(prop, SkipCountKey, "0");
      match parseInt(skipCount)
      case None =>
        skipn := 0;
      case Some(v) =>
        skipn := if v < 0 then 0 else v;
    }

    /**
     * `init`: configure the policy, then create the periodic task. The factory
     * and the rate parsing are given as their outcomes: whether a task
     * object was made, and whether a valid rate was found.
     */
    method Init(prop: Props.Node, parseInt: string -> Option<int>, taskCreated: bool, rateValid: bool)
      returns (r: DataPortStatus)
      modifies this`pushPolicy, this`skipn, this`hasTask, this`suspended
      ensures pushPolicy == ConfiguredPolicy(prop)
      ensures skipn == ConfiguredSkipCount(prop, parseInt)
      ensures hasTask == taskCreated
      ensures r == (if taskCreated && rateValid then PORT_OK else INVALID_ARGS)
      ensures suspended == (if taskCreated && rateValid then true else old(suspended))
    {
      SetPushPolicy(prop, parseInt);
      var created := CreateTask(taskCreated, rateValid);
      if !created {
        return INVALID_ARGS;
      }
      return PORT_OK;
    }

    /**
     * `createTask`: the factory's product and the rate lookup are given as
     * their outcomes. A task made with a usable rate is left suspended.
     */
    method CreateTask(taskCreated: bool, rateValid: bool) returns (ok: bool)
      modifies this`hasTask, this`suspended
      ensures hasTask == taskCreated
      ensures ok == (taskCreated && rateValid)
      ensures suspended == (if ok then true else old(suspended))
    {
      hasTask := taskCreated;
      if !taskCreated || !rateValid {
        return false;
      }
      suspended := true;
      return true;
    }

    method SetConsumer(c: PT.InPortConsumer?) returns (r: DataPortStatus)
      modifies this`consumer
      ensures c == null ==> r == INVALID_ARGS && consumer == old(consumer)
      ensures c != null ==> r == PORT_OK && consumer == c
    {
      if c == null {
        return INVALID_ARGS;
      }
      consumer := c;
      return PORT_OK;
    }

    method SetBuffer(b: PT.CdrBuffer?) returns (r: DataPortStatus)
      requires b != null ==> b.Valid()
      modifies this`buffer
      ensures old(Valid()) ==> Valid()
      ensures b == null ==> r == INVALID_ARGS && buffer == old(buffer)
      ensures b != null ==> r == PORT_OK && buffer == b
    {
      if b == null {
        return INVALID_ARGS;
      }
      buffer := b;
      return PORT_OK;
    }

    method SetListener(info: PT.ConnectorInfo, ls: PT.ConnectorListeners?) returns (r: DataPortStatus)
      modifies this`listeners, this`profile
      ensures ls == null ==> r == INVALID_ARGS && listeners == old(listeners) && profile == old(profile)
      ensures ls != null ==> r == PORT_OK && listeners == ls && profile == info
    {
      if ls == null {
        return INVALID_ARGS;
      }
      profile := info;
      listeners := ls;
      return PORT_OK;
    }

    /**
     * `write(data, timeout)`. The buffer's answer to the write is given as
     * `outcome`. Unset collaborators and a lost connection return at once;
     * after a full receiver the sample is stored without ON_BUFFER_WRITE
     * and without waking the periodic task; otherwise ON_BUFFER_WRITE is fired, the
     * sample written, the periodic task resumed and the answer translated.
     */
    method Write(d: ByteData, outcome: PT.BufferStatus) returns (r: DataPortStatus)
      requires Valid()
      requires Ready() && retcode != CONNECTION_LOST && retcode != SEND_FULL ==> hasTask
      modifies buffer, listeners, this`data, this`suspended
      ensures Valid()
      ensures !Ready() ==> r == PRECONDITION_NOT_MET && data == old(data) && suspended == old(suspended)
      ensures !Ready() && buffer != null ==> buffer.samples == old(buffer.samples) && buffer.rptr == old(buffer.rptr)
      ensures !Ready() && listeners != null ==> listeners.notices == old(listeners.notices)
      ensures Ready() && retcode == CONNECTION_LOST ==>
                r == CONNECTION_LOST && data == old(data) && suspended == old(suspended)
                && buffer.samples == old(buffer.samples) && listeners.notices == old(listeners.notices)
      ensures Ready() && retcode == SEND_FULL ==>
                r == BUFFER_FULL && data == d && suspended == old(suspended)
                && buffer.samples == old(buffer.samples) + (if outcome == PT.OK then [d] else [])
                && listeners.notices == old(listeners.notices)
      ensures Ready() && retcode != CONNECTION_LOST && retcode != SEND_FULL ==>
                r == ConvertReturn(outcome, d).status && data == d && !suspended
                && buffer.samples == old(buffer.samples) + (if outcome == PT.OK then [d] else [])
                && listeners.notices == old(listeners.notices) + [Event(PT.ON_BUFFER_WRITE, d)] + ConvertReturn(outcome, d).notices
      ensures buffer != null ==> buffer.rptr == old(buffer.rptr)
    {
      if consumer == null || buffer == null || listeners == null {
        return PRECONDITION_NOT_MET;
      }
      if retcode == CONNECTION_LOST {
        return retcode;
      }
      data := d;
      if retcode == SEND_FULL {
        var ignored := buffer.Write(data, outcome);
        return BUFFER_FULL;
      }
      listeners.Notify([Event(PT.ON_BUFFER_WRITE, data)]);
      var ret := buffer.Write(data, outcome);
      suspended := false;
      var conv := ConvertReturn(ret, data);
      listeners.Notify(conv.notices);
      return conv.status;
    }

    method Activate() returns (r: DataPortStatus)
      modifies this`active, this`suspended
      ensures !hasTask || buffer == null ==> r == PRECONDITION_NOT_MET && active == old(active) && suspended == old(suspended)
      ensures hasTask && buffer != null ==> r == PORT_OK && active && !suspended
    {
      if !hasTask || buffer == null {
        return PRECONDITION_NOT_MET;
      }
      active := true;
      suspended := false;
      return PORT_OK;
    }

    method Deactivate() returns (r: DataPortStatus)
      modifies this`active, this`suspended
      ensures !hasTask ==> r == PRECONDITION_NOT_MET && active == old(active) && suspended == old(suspended)
      ensures hasTask ==> r == PORT_OK && !active && suspended
    {
      if !hasTask {
        return PRECONDITION_NOT_MET;
      }
      active := false;
      suspended := true;
      return PORT_OK;
    }

    /**
     * The block every policy runs for one sample taken from the buffer:
     * ON_BUFFER_READ and ON_SEND, the put, then ON_RECEIVED on success or
     * `invokeListener`'s notification on failure.
     */
    static method Send(cons: PT.InPortConsumer, ls: PT.ConnectorListeners, cdr: ByteData) returns (r: DataPortStatus)
      modifies cons, ls
      ensures cons.sent == old(cons.sent) + [cdr]
      ensures var st := cons.reply(|old(cons.sent)|, cdr);
              && (st == PORT_OK ==> r == PORT_OK && ls.notices == old(ls.notices) + Accepted(cdr))
              && (st != PORT_OK ==>
                    var conv := InvokeListener(st, cdr);
                    r == conv.status && ls.notices == old(ls.notices) + Attempted(cdr) + conv.notices)
    {
      ls.Notify([Event(PT.ON_BUFFER_READ, cdr)]);
      ls.Notify([Event(PT.ON_SEND, cdr)]);
      var ret := cons.Put(cdr);
      if ret != PORT_OK {
        var conv := InvokeListener(ret, cdr);
        ls.Notify(conv.notices);
        return conv.status;
      }
      ls.Notify([Event(PT.ON_RECEIVED, cdr)]);
      return PORT_OK;
    }

    /**
     * The block `pushAll`, `pushFifo` and `pushNew` share: send the sample
     * at the read index, and move the read index past it if it was accepted.
     */
    method PushHead() returns (r: DataPortStatus)
      requires Valid() && Ready() && buffer.Readable() > 0
      modifies buffer, consumer, listeners
      ensures Valid() && buffer.samples == old(buffer.samples)
      ensures consumer.sent == old(consumer.sent) + [old(buffer.samples[buffer.rptr])]
      ensures var cdr := old(buffer.samples[buffer.rptr]);
              var st := consumer.reply(|old(consumer.sent)|, cdr);
              && (st == PORT_OK ==>
                    r == PORT_OK && buffer.rptr == old(buffer.rptr) + 1
                    && listeners.notices == old(listeners.notices) + Accepted(cdr))
              && (st != PORT_OK ==>
                    var conv := InvokeListener(st, cdr);
                    r == conv.status && buffer.rptr == old(buffer.rptr)
                    && listeners.notices == old(listeners.notices) + Attempted(cdr) + conv.notices)
    {
      var cdr := buffer.Get();
      r := Send(consumer, listeners, cdr);
      if r == PORT_OK {
        buffer.AdvanceRptr(1);
      }
    }

    /**
     * The loop of `pushAll`: send readable samples oldest first until one
     * is refused or none is left. The read index ends after the accepted
     * run; everything put and notified is stated in terms of that run.
     */
    method DrainReadable() returns (r: DataPortStatus)
      requires Valid() && Ready()
      modifies buffer, consumer, listeners
      ensures Valid() && buffer.samples == old(buffer.samples)
      ensures var u := old(buffer.samples)[old(buffer.rptr)..];
              var c := old(|consumer.sent|);
              var n := buffer.rptr - old(buffer.rptr);
              && old(buffer.rptr) <= buffer.rptr && n <= OkRun(consumer.reply, c, u)
              && (r == PORT_OK ==>
                    n == |u| && consumer.sent == old(consumer.sent) + u
                    && listeners.notices == old(listeners.notices) + AcceptedAll(u))
              && (r != PORT_OK ==>
                    && n < |u| && consumer.reply(c + n, u[n]) != PORT_OK
                    && var conv := InvokeListener(consumer.reply(c + n, u[n]), u[n]);
                    && r == conv.status
                    && consumer.sent == old(consumer.sent) + u[..n + 1]
                    && listeners.notices == old(listeners.notices) + AcceptedAll(u[..n]) + Attempted(u[n]) + conv.notices)
    {
      var buf, cons, ls := buffer, consumer, listeners;
      ghost var u := buf.Unread();
      ghost var c := |cons.sent|;
      ghost var p0 := buf.rptr;
      ghost var sent0 := cons.sent;
      ghost var log0 := ls.notices;
      ghost var done: seq<ByteData> := [];
      while buf.Readable() > 0
        invariant buffer == buf && consumer == cons && listeners == ls
        invariant buf.Valid() && buf.samples == old(buf.samples)
        invariant |done| <= |u| && done == u[..|done|] && buf.rptr == p0 + |done|
        invariant cons.sent == sent0 + done
        invariant ls.notices == log0 + AcceptedAll(done)
        invariant |done| <= OkRun(cons.reply, c, u)
        decreases |u| - |done|
      {
        ghost var i := |done|;
        ghost var cdr := u[i];
        var ret := PushHead();
        assert u[..i + 1] == done + [cdr];
        if ret != PORT_OK {
          return ret;
        }
        OkRunGrows(cons.reply, c, u, i);
        AcceptedAllSnoc(done, cdr);
        done := done + [cdr];
      }
      assert done == u;
      return PORT_OK;
    }

    /** `pushAll`; `empty` is what `bufferIsEmpty()` reports. */
    method PushAll(empty: bool) returns (r: DataPortStatus)
      requires Valid() && Ready()
      modifies buffer, consumer, listeners
      ensures Valid()
      ensures var t := PushAllOutcome(old(buffer.samples), old(buffer.rptr), consumer.reply, old(|consumer.sent|), empty);
              && r == t.status && buffer.samples == old(buffer.samples) && buffer.rptr == t.rptr
              && consumer.sent == old(consumer.sent) + t.puts
              && listeners.notices == old(listeners.notices) + t.notices
    {
      if empty {
        return BUFFER_EMPTY;
      }
      ghost var samples := buffer.samples;
      ghost var c := |consumer.sent|;
      ghost var p0 := buffer.rptr;
      r := DrainReadable();
      ghost var n := buffer.rptr - p0;
      if r == PORT_OK {
        PushAllDrained(samples, p0, consumer.reply, c);
      } else {
        PushAllStopped(samples, p0, consumer.reply, c, n);
      }
    }

    /** `pushFifo`: a non-empty report means something is readable. */
    method PushFifo(empty: bool) returns (r: DataPortStatus)
      requires Valid() && Ready() && (empty || buffer.Readable() > 0)
      modifies buffer, consumer, listeners
      ensures Valid()
      ensures var t := PushFifoOutcome(old(buffer.samples), old(buffer.rptr), consumer.reply, old(|consumer.sent|), empty);
              && r == t.status && buffer.samples == old(buffer.samples) && buffer.rptr == t.rptr
              && consumer.sent == old(consumer.sent) + t.puts
              && listeners.notices == old(listeners.notices) + t.notices
    {
      if empty {
        return BUFFER_EMPTY;
      }
      HeadTick(buffer.samples, buffer.rptr, consumer.reply, |consumer.sent|);
      r := PushHead();
    }

    /** `pushNew`: a non-empty report means some sample has been stored. */
    method PushNew(empty: bool) returns (r: DataPortStatus)
      requires Valid() && Ready() && (empty || |buffer.samples| > 0)
      modifies buffer, consumer, listeners, this`readback
      ensures Valid()
      ensures readback == (old(readback) || !empty)
      ensures var t := PushNewOutcome(old(buffer.samples), old(buffer.rptr), consumer.reply, old(|consumer.sent|), empty);
              && r == t.status && buffer.samples == old(buffer.samples) && buffer.rptr == t.rptr
              && consumer.sent == old(consumer.sent) + t.puts
              && listeners.notices == old(listeners.notices) + t.notices
    {
      if empty {
        return BUFFER_EMPTY;
      }
      readback := true;
      HeadTick(buffer.samples, |buffer.samples| - 1, consumer.reply, |consumer.sent|);
      NewIsHeadOfNewest(buffer.samples, buffer.rptr, consumer.reply, |consumer.sent|);
      buffer.AdvanceRptr(buffer.Readable() - 1);
      r := PushHead();
    }

    /**
     * The body of `pushSkip`'s loop: skip ahead, send the sample reached,
     * and on a refusal rewind the skip.
     */
    static method SkipSend(buf: PT.CdrBuffer, cons: PT.InPortConsumer, ls: PT.ConnectorListeners, postskip: nat,
                           ghost cdr: ByteData, ghost st: DataPortStatus) returns (r: DataPortStatus)
      requires buf.Valid() && buf.rptr + postskip < |buf.samples|
      requires cdr == buf.samples[buf.rptr + postskip] && st == cons.reply(|cons.sent|, cdr)
      modifies buf, cons, ls
      ensures buf.Valid() && buf.samples == old(buf.samples)
      ensures cons.sent == old(cons.sent) + [cdr]
      ensures st == PORT_OK ==>
                r == PORT_OK && buf.rptr == old(buf.rptr) + postskip
                && ls.notices == old(ls.notices) + Accepted(cdr)
      ensures st != PORT_OK ==>
                var conv := InvokeListener(st, cdr);
                r == conv.status && buf.rptr == old(buf.rptr)
                && ls.notices == old(ls.notices) + Attempted(cdr) + conv.notices
    {
      buf.AdvanceRptr(postskip);
      var cdr := buf.Get();
      r := Send(cons, ls, cdr);
      if r != PORT_OK {
        buf.AdvanceRptr(-(postskip as int));
      }
    }

    /**
     * Where the loop of `pushSkip` stands before pass i of `loopcnt`: the
     * passes so far put `s.puts` and notified `s.notices`, the read index
     * is at the last accepted pick, the next skip reaches the i-th pick,
     * `readable` counts what lies past the read index, and `f` is where
     * the remaining passes will end.
     */
    static ghost predicate SkipLoopAt(buf: PT.CdrBuffer, cons: PT.InPortConsumer, ls: PT.ConnectorListeners,
                                      samples: seq<ByteData>, reply: Reply, sent0: seq<ByteData>, log0: seq<Notice>,
                                      k: nat, l: nat, p0: nat, loopcnt: nat, i: nat, s: SkipPass, f: SkipPass,
                                      postskip: nat, readable: nat)
      reads buf, cons, ls
    {
      && l <= k && i <= loopcnt
      && buf.Valid() && buf.samples == samples && cons.reply == reply
      && s.status == PORT_OK && s.rptr == buf.rptr && s.postskip == postskip
      && buf.rptr + postskip == p0 + SkipOffset(k, l, i)
      && readable + buf.rptr == |samples|
      && cons.sent == sent0 + s.puts && ls.notices == log0 + s.notices
      && f == SkipRun(samples, reply, |sent0|, k, loopcnt - i, s)
    }

    /** Pass i of the loop: SkipSend at the position the pass reaches, then the next skip is k+1. */
    static method SkipOnePass(buf: PT.CdrBuffer, cons: PT.InPortConsumer, ls: PT.ConnectorListeners, k: nat,
                              postskip: nat, readable: nat,
                              ghost samples: seq<ByteData>, ghost reply: Reply, ghost sent0: seq<ByteData>, ghost log0: seq<Notice>,
                              ghost l: nat, ghost p0: nat, ghost loopcnt: nat, ghost i: nat, ghost s: SkipPass, ghost f: SkipPass)
      returns (ret: DataPortStatus, postskip': nat, readable': nat, ghost s': SkipPass)
      requires SkipLoopAt(buf, cons, ls, samples, reply, sent0, log0, k, l, p0, loopcnt, i, s, f, postskip, readable)
      requires i < loopcnt && p0 + SkipOffset(k, l, i) < |samples|
      modifies buf, cons, ls
      ensures ret == PORT_OK ==>
                SkipLoopAt(buf, cons, ls, samples, reply, sent0, log0, k, l, p0, loopcnt, i + 1, s', f, postskip', readable')
      ensures ret != PORT_OK ==>
                && buf.Valid() && buf.samples == samples && ret == f.status && buf.rptr == f.rptr
                && cons.sent == sent0 + f.puts && ls.notices == log0 + f.notices
    {
      ghost var c := |sent0|;
      ghost var pos := buf.rptr + postskip;
      ghost var cdr := samples[pos];
      s' := SkipPass(pos, k + 1, s.puts + [cdr], s.notices + Accepted(cdr), PORT_OK);
      ghost var st := reply(c + |s.puts|, cdr);
      ret := SkipSend(buf, cons, ls, postskip, cdr, st);
      postskip', readable' := k + 1, readable - postskip;
      if ret != PORT_OK {
        SkipLoopRefused(samples, reply, c, k, loopcnt, i, s, f, cdr, st);
      } else {
        SkipLoopStep(samples, reply, c, k, loopcnt, i, s, s', f);
      }
    }

    /**
     * The loop of `pushSkip`: `loopcnt` passes of SkipSend, the first
     * skipping k-l and the others k+1, stopping at the first refusal.
     * `readable` ends as the count left readable after the last send.
     */
    static method SkipLoop(buf: PT.CdrBuffer, cons: PT.InPortConsumer, ls: PT.ConnectorListeners, k: nat, l: nat,
                           readable0: nat, loopcnt: nat) returns (ret: DataPortStatus, readable: nat)
      requires buf.Valid() && l <= k
      requires readable0 == buf.Readable() && Fits(readable0, k, l, loopcnt)
      modifies buf, cons, ls
      ensures buf.Valid() && buf.samples == old(buf.samples)
      ensures var f := SkipRun(old(buf.samples), cons.reply, old(|cons.sent|), k, loopcnt, SkipPass(old(buf.rptr), k - l, [], [], PORT_OK));
              && ret == f.status
              && cons.sent == old(cons.sent) + f.puts
              && ls.notices == old(ls.notices) + f.notices
              && (ret == PORT_OK ==> buf.rptr + readable == |buf.samples|)
              && (ret != PORT_OK ==> buf.rptr == f.rptr)
    {
      ghost var samples, p0, reply := buf.samples, buf.rptr, cons.reply;
      ghost var sent0, log0 := cons.sent, ls.notices;
      ghost var s := SkipPass(p0, k - l, [], [], PORT_OK);
      ghost var f := SkipRun(samples, reply, |sent0|, k, loopcnt, s);
      ret, readable := PORT_OK, readable0;
      var postskip: nat := k - l;
      for i := 0 to loopcnt
        invariant ret == PORT_OK
        invariant SkipLoopAt(buf, cons, ls, samples, reply, sent0, log0, k, l, p0, loopcnt, i, s, f, postskip, readable)
      {
        SkipPassInRange(readable0, k, l, loopcnt, i);
        ret, postskip, readable, s :=
          SkipOnePass(buf, cons, ls, k, postskip, readable, samples, reply, sent0, log0, l, p0, loopcnt, i, s, f);
        if ret != PORT_OK {
          return;
        }
      }
    }

    /**
     * The non-empty tick of `pushSkip` with skip count k and carry l: the
     * loop over the readable samples, then the skip past the rest of the
     * region and the new carry when every put was accepted.
     */
    static method SkipTick(buf: PT.CdrBuffer, cons: PT.InPortConsumer, ls: PT.ConnectorListeners, k: nat, l: nat)
      returns (r: DataPortStatus, carry: nat)
      requires buf.Valid() && l <= k
      modifies buf, cons, ls
      ensures buf.Valid() && carry <= k
      ensures var o := PushSkipOutcome(old(buf.samples), old(buf.rptr), cons.reply, old(|cons.sent|), false, k, l);
              && r == o.0.status && buf.samples == old(buf.samples) && buf.rptr == o.0.rptr
              && cons.sent == old(cons.sent) + o.0.puts
              && ls.notices == old(ls.notices) + o.0.notices
              && carry == o.1
    {
      ghost var samples, p0 := buf.samples, buf.rptr;
      var readable := buf.Readable();
      var preskip := readable + l;
      var loopcnt := preskip / (k + 1);
      GroupsFit(readable, k, l, preskip, loopcnt);
      assert preskip == |samples[p0..]| + l;
      r, readable := SkipLoop(buf, cons, ls, k, l, readable, loopcnt);
      if r != PORT_OK {
        return r, l;
      }
      buf.AdvanceRptr(readable);
      carry := preskip % (k + 1);
    }

    /** `pushSkip`; the carry must not exceed the skip count (the source asserts it). */
    method PushSkip(empty: bool) returns (r: DataPortStatus)
      requires Valid() && Ready() && leftskip <= skipn
      modifies buffer, consumer, listeners, this`leftskip
      ensures Valid() && leftskip <= skipn
      ensures var o := PushSkipOutcome(old(buffer.samples), old(buffer.rptr), old(consumer.reply), old(|consumer.sent|), empty, old(skipn), old(leftskip));
              && r == o.0.status && buffer.samples == old(buffer.samples) && buffer.rptr == o.0.rptr
              && consumer.sent == old(consumer.sent) + o.0.puts
              && listeners.notices == old(listeners.notices) + o.0.notices
              && leftskip == o.1
    {
      if empty {
        return BUFFER_EMPTY;
      }
      r, leftskip := SkipTick(buffer, consumer, listeners, skipn, leftskip);
    }

    /**
     * `svc`: one period of the periodic task. It runs the configured policy and
     * records the outcome in `retcode`; `empty` is what `bufferIsEmpty()`
     * reports.
     */
    method Svc(empty: bool)
      requires Valid() && Ready()
      requires pushPolicy == SKIP ==> leftskip <= skipn
      requires pushPolicy == FIFO ==> empty || buffer.Readable() > 0
      requires pushPolicy == NEW ==> empty || |buffer.samples| > 0
      modifies buffer, consumer, listeners, this`retcode, this`leftskip, this`readback
      ensures Valid()
      ensures var (t, l) := PolicyOutcome(pushPolicy, old(buffer.samples), old(buffer.rptr), consumer.reply,
                                          old(|consumer.sent|), empty, skipn, old(leftskip));
              && retcode == t.status && buffer.samples == old(buffer.samples) && buffer.rptr == t.rptr
              && consumer.sent == old(consumer.sent) + t.puts
              && listeners.notices == old(listeners.notices) + t.notices
              && leftskip == l
      ensures readback == (old(readback) || (pushPolicy == NEW && !empty))
    {
      match pushPolicy
      case ALL =>
        retcode := PushAll(empty);
      case FIFO =>
        retcode := PushFifo(empty);
      case SKIP =>
        retcode := PushSkip(empty);
      case NEW =>
        retcode := PushNew(empty);
    }
  }

  /**
   * The sticky shortcuts of `write`: once a tick has lost the connection,
   * every later write returns CONNECTION_LOST and leaves the buffer alone.
   */
  method WriteAfterLostConnection(p: Publisher, d: ByteData, outcome: PT.BufferStatus) returns (r: DataPortStatus)
    requires p.Valid() && p.Ready() && p.retcode == CONNECTION_LOST
    modifies p.buffer, p.listeners, p`data, p`suspended
    ensures r == CONNECTION_LOST
    ensures p.buffer.samples == old(p.buffer.samples) && p.buffer.rptr == old(p.buffer.rptr)
  {
    r := p.Write(d, outcome);
  }
}
