/**
  The listening side of the management interface: choosing the transport for
  a listen address, and the accept loop that hands every incoming OpenVPN
  connection to a handler, backs off after temporary accept errors and stops
  at the first permanent one.  The socket is an input here: a listener is
  given the sequence of outcomes its `Accept` calls will see, and the loop
  records the sleeps it takes and the connections it dispatches instead of
  sleeping and starting goroutines.
 */
module Server {
  import opened Wrappers

  /** Durations are integers of nanoseconds, as Go's `time.Duration`. */
  const Millisecond: nat := 1_000_000
  const Second: nat := 1_000_000_000
  /** The first wait after a temporary accept error. */
  const InitialDelay: nat := 5 * Millisecond
  /** The longest wait between two accept attempts. */
  const MaxDelay: nat := Second

  /**
    An error returned by the socket layer; `temporary` is what
    `net.Error.Temporary()` would report, and only errors of type `net.Error`
    have it.
   */
  datatype NetError = NetError(code: nat, isNetError: bool, temporary: bool)

  /** The test `ne, ok := err.(net.Error); ok && ne.Temporary()`. */
  predicate IsTemporary(err: NetError)
  {
    err.isNetError && err.temporary
  }

  /** An accepted socket connection. */
  datatype Conn = Conn(id: nat)

  /** `IncomingConn`: a connection from OpenVPN, as handed to the handler. */
  datatype IncomingConn = IncomingConn(conn: Conn)

  /** The outcome of one `Accept` on the underlying socket. */
  datatype RawAccept = Accepted(conn: Conn) | Failed(err: NetError)

  /** The outcome of `net.Listen` for one transport and address. */
  datatype NetListen = Listening(accepts: seq<RawAccept>) | ListenFailed(err: NetError)

  // ---------------------------------------------------------------------
  // Listen

  /** The transport `Listen` uses: a Unix socket for an absolute path, TCP otherwise. */
  function Proto(laddr: string): (proto: string)
    ensures proto == "unix" || proto == "tcp"
    ensures proto == "unix" <==> |laddr| > 0 && laddr[0] == '/'
  {
    if |laddr| > 0 && laddr[0] == '/' then "unix" else "tcp"
  }

  /** The three kinds of address: a socket path, a host and port, and the empty address. */
  lemma ProtoExamples()
    ensures Proto("/run/openvpn/mgmt.sock") == "unix"
    ensures Proto("127.0.0.1:7505") == "tcp"
    ensures Proto("") == "tcp"
  {
  }

  /**
    `Listen`: open the socket on the chosen transport through `net`, and wrap
    it, or return the error `net` reported and no listener.
   */
  method Listen(laddr: string, net: (string, string) -> NetListen)
    returns (l: MgmtListener?, err: Option<NetError>)
    ensures net(Proto(laddr), laddr).ListenFailed? ==>
      l == null && err == Some(net(Proto(laddr), laddr).err)
    ensures net(Proto(laddr), laddr).Listening? ==>
      l != null && fresh(l) && err == None &&
      l.pending == net(Proto(laddr), laddr).accepts && l.closes == 0
  {
    var proto := "tcp";
    if |laddr| > 0 && laddr[0] == '/' {
      proto := "unix";
    }
    var listener := net(proto, laddr);
    if listener.ListenFailed? {
      return null, Some(listener.err);
    }
    l := new MgmtListener(listener.accepts);
    err := None;
  }

  // ---------------------------------------------------------------------
  // The backoff schedule

  /** The wait after a temporary error, given the previous wait (0 after a success). */
  function NextDelay(tempDelay: nat): (d: nat)
    ensures 0 < d <= MaxDelay
    ensures tempDelay <= MaxDelay ==> tempDelay <= d
    ensures tempDelay > 0 && tempDelay < MaxDelay ==> tempDelay < d
  {
    var doubled := if tempDelay == 0 then InitialDelay else tempDelay * 2;
    if doubled > MaxDelay then MaxDelay else doubled
  }

  function Pow2(k: nat): (p: nat)
    ensures p >= 1
  {
    if k == 0 then 1 else 2 * Pow2(k - 1)
  }

  /**
    The closed form of the schedule: the wait before the retry that follows
    the `k + 1`-th consecutive temporary error is 5 ms doubled `k` times,
    capped at one second.
   */
  function Backoff(k: nat): (d: nat)
    ensures 0 < d <= MaxDelay
  {
    if InitialDelay * Pow2(k) > MaxDelay then MaxDelay else InitialDelay * Pow2(k)
  }

  /** `tempDelay` after `k` consecutive temporary errors. */
  function Delay(k: nat): nat
  {
    if k == 0 then 0 else Backoff(k - 1)
  }

  /** One step of the loop's doubling and capping moves the closed form on by one. */
  lemma NextDelayBackoff(k: nat)
    ensures NextDelay(Delay(k)) == Backoff(k)
  {
    if k > 0 {
      assert Pow2(k) == 2 * Pow2(k - 1);
      assert InitialDelay * Pow2(k) == 2 * (InitialDelay * Pow2(k - 1));
    }
  }

  /** From eight consecutive errors on, the doubling has reached the cap. */
  lemma {:induction false} Pow2AtLeast(k: nat)
    requires k >= 8
    ensures Pow2(k) >= 256
  {
    if k > 8 {
      Pow2AtLeast(k - 1);
    }
  }

  /** The waits are 5, 10, 20, 40, 80, 160, 320, 640 ms, then one second each time. */
  lemma BackoffValues(k: nat)
    ensures Backoff(0) == 5 * Millisecond && Backoff(1) == 10 * Millisecond
    ensures Backoff(2) == 20 * Millisecond && Backoff(3) == 40 * Millisecond
    ensures Backoff(4) == 80 * Millisecond && Backoff(5) == 160 * Millisecond
    ensures Backoff(6) == 320 * Millisecond && Backoff(7) == 640 * Millisecond
    ensures k >= 8 ==> Backoff(k) == Second
  {
    if k >= 8 {
      Pow2AtLeast(k);
    }
  }

  // ---------------------------------------------------------------------
  // The accept loop, as a function of the accept outcomes

  /** What one run of the accept loop did. */
  datatype Outcome =
    | Returned(err: NetError)
      /** The loop was still accepting when the given outcomes ran out. */
    | StillServing

  datatype Trace = Trace(sleeps: seq<nat>, handled: seq<IncomingConn>, outcome: Outcome)

  /**
    The accept loop over the outcomes `accepts`, starting with `tempDelay`:
    a connection is dispatched and resets the delay, a temporary error waits
    the next delay, a permanent error ends the loop and is returned.
   */
  function ServeRun(accepts: seq<RawAccept>, tempDelay: nat): (t: Trace)
    ensures t.outcome.Returned? ==> !IsTemporary(t.outcome.err)
    ensures |t.sleeps| + |t.handled| <= |accepts|
    decreases |accepts|
  {
    if |accepts| == 0 then Trace([], [], StillServing)
    else
      match accepts[0]
      case Accepted(conn) =>
        var t := ServeRun(accepts[1..], 0);
        t.(handled := [IncomingConn(conn)] + t.handled)
      case Failed(err) =>
        if IsTemporary(err) then
          var d := NextDelay(tempDelay);
          var t := ServeRun(accepts[1..], d);
          t.(sleeps := [d] + t.sleeps)
        else Trace([], [], Returned(err))
  }

  /** An outcome that ends the loop. */
  predicate IsPermanent(a: RawAccept)
  {
    a.Failed? && !IsTemporary(a.err)
  }

  /** The outcomes the loop gets through: everything before the first permanent error. */
  function Live(accepts: seq<RawAccept>): (live: seq<RawAccept>)
    ensures |live| <= |accepts| && live == accepts[..|live|]
    ensures forall i :: 0 <= i < |live| ==> !IsPermanent(accepts[i])
    ensures |live| < |accepts| ==> IsPermanent(accepts[|live|])
    decreases |accepts|
  {
    if |accepts| == 0 || IsPermanent(accepts[0]) then []
    else [accepts[0]] + Live(accepts[1..])
  }

  /** One step of `Live`: a permanent error stops it, anything else is kept. */
  lemma LiveStep(accepts: seq<RawAccept>)
    requires |accepts| > 0
    ensures |Live(accepts)| == if IsPermanent(accepts[0]) then 0 else 1 + |Live(accepts[1..])|
  {
  }

  /** One step of `ServeRun`, as the loop body takes it. */
  lemma ServeStep(accepts: seq<RawAccept>, tempDelay: nat)
    requires |accepts| > 0
    ensures accepts[0].Accepted? ==>
      ServeRun(accepts, tempDelay) == Then([], [IncomingConn(accepts[0].conn)], ServeRun(accepts[1..], 0))
    ensures accepts[0].Failed? && IsTemporary(accepts[0].err) ==>
      var d := NextDelay(tempDelay);
      ServeRun(accepts, tempDelay) == Then([d], [], ServeRun(accepts[1..], d))
    ensures IsPermanent(accepts[0]) ==>
      ServeRun(accepts, tempDelay) == Trace([], [], Returned(accepts[0].err))
  {
  }

  /** The connections among `accepts`, in order. */
  function Connections(accepts: seq<RawAccept>): seq<IncomingConn>
    decreases |accepts|
  {
    if |accepts| == 0 then []
    else if accepts[0].Accepted? then [IncomingConn(accepts[0].conn)] + Connections(accepts[1..])
    else Connections(accepts[1..])
  }

  /** The number of failed accepts among `accepts`. */
  function Failures(accepts: seq<RawAccept>): nat
    decreases |accepts|
  {
    if |accepts| == 0 then 0
    else (if accepts[0].Failed? then 1 else 0) + Failures(accepts[1..])
  }

  /**
    The waits in closed form: after `streak` consecutive temporary errors the
    next one waits `Backoff(streak)`, and a connection resets the streak.
   */
  function Schedule(accepts: seq<RawAccept>, streak: nat): seq<nat>
    decreases |accepts|
  {
    if |accepts| == 0 || IsPermanent(accepts[0]) then []
    else if accepts[0].Accepted? then Schedule(accepts[1..], 0)
    else [Backoff(streak)] + Schedule(accepts[1..], streak + 1)
  }

  /**
    The loop ends exactly when some accept fails permanently, and then it
    returns the first such error.
   */
  lemma {:induction false} ServeOutcome(accepts: seq<RawAccept>, tempDelay: nat)
    ensures var t, live := ServeRun(accepts, tempDelay), Live(accepts);
      (t.outcome.Returned? <==> |live| < |accepts|) &&
      (t.outcome.Returned? ==> t.outcome.err == accepts[|live|].err)
    decreases |accepts|
  {
    if |accepts| > 0 && !IsPermanent(accepts[0]) {
      var next := if accepts[0].Accepted? then 0 else NextDelay(tempDelay);
      ServeOutcome(accepts[1..], next);
      assert |Live(accepts)| == 1 + |Live(accepts[1..])|;
    }
  }

  /**
    Every connection accepted before the first permanent error is handed to
    the handler exactly once, in accept order, and no other.
   */
  lemma {:induction false} ServeHandled(accepts: seq<RawAccept>, tempDelay: nat)
    ensures ServeRun(accepts, tempDelay).handled == Connections(Live(accepts))
    decreases |accepts|
  {
    if |accepts| > 0 && !IsPermanent(accepts[0]) {
      var next := if accepts[0].Accepted? then 0 else NextDelay(tempDelay);
      ServeHandled(accepts[1..], next);
      var live := Live(accepts);
      assert live[0] == accepts[0] && live[1..] == Live(accepts[1..]);
    }
  }

  /**
    The loop sleeps once per temporary error before the first permanent one,
    and each wait follows the closed-form schedule: `Backoff(k)` after `k`
    errors in a row, back to 5 ms after every connection.
   */
  lemma {:induction false} ServeSleeps(accepts: seq<RawAccept>, streak: nat)
    ensures ServeRun(accepts, Delay(streak)).sleeps == Schedule(accepts, streak)
    ensures |Schedule(accepts, streak)| == Failures(Live(accepts))
    decreases |accepts|
  {
    if |accepts| > 0 && !IsPermanent(accepts[0]) {
      var live := Live(accepts);
      assert live[0] == accepts[0] && live[1..] == Live(accepts[1..]);
      if accepts[0].Accepted? {
        ServeSleeps(accepts[1..], 0);
      } else {
        NextDelayBackoff(streak);
        ServeSleeps(accepts[1..], streak + 1);
      }
    }
  }

  /** Every wait is positive and at most one second. */
  lemma {:induction false} ScheduleBounds(accepts: seq<RawAccept>, streak: nat)
    ensures forall i :: 0 <= i < |Schedule(accepts, streak)| ==>
      0 < Schedule(accepts, streak)[i] <= MaxDelay
    decreases |accepts|
  {
    if |accepts| > 0 && !IsPermanent(accepts[0]) {
      if accepts[0].Accepted? {
        ScheduleBounds(accepts[1..], 0);
      } else {
        ScheduleBounds(accepts[1..], streak + 1);
      }
    }
  }

  // ---------------------------------------------------------------------
  // The listener object

  /** `mgmtListener`: the socket, given as the outcomes its accepts will see. */
  class MgmtListener {
    /** The outcomes of the `Accept` calls still to come. */
    var pending: seq<RawAccept>
    /** How many times the socket has been closed. */
    var closes: nat

    /** `NewMgmtListener`. */
    constructor (accepts: seq<RawAccept>)
      ensures pending == accepts && closes == 0
    {
      pending := accepts;
      closes := 0;
    }

    /**
      `Accept`: the next outcome of the socket, as a wrapped connection and no
      error, or no connection and the socket's error.
     */
    method Accept() returns (incoming: Option<IncomingConn>, err: Option<NetError>)
      requires |pending| > 0
      modifies this
      ensures pending == old(pending[1..]) && closes == old(closes)
      ensures incoming.Some? <==> err.None?
      ensures old(pending[0]).Accepted? ==> incoming == Some(IncomingConn(old(pending[0]).conn))
      ensures old(pending[0]).Failed? ==> err == Some(old(pending[0]).err)
    {
      var next := pending[0];
      pending := pending[1..];
      if next.Failed? {
        return None, Some(next.err);
      }
      return Some(IncomingConn(next.conn)), None;
    }

    /** `Close`. */
    method Close()
      modifies this
      ensures closes == old(closes) + 1 && pending == old(pending)
    {
      closes := closes + 1;
    }

    /**
      `Serve`: accept until the first permanent error, which is returned after
      the socket is closed once; the run is the one `ServeRun` describes.
     */
    method Serve() returns (sleeps: seq<nat>, handled: seq<IncomingConn>, outcome: Outcome)
      modifies this
      ensures Trace(sleeps, handled, outcome) == ServeRun(old(pending), 0)
      ensures outcome.Returned? ==> closes == old(closes) + 1
      ensures outcome.StillServing? ==> closes == old(closes) && pending == []
      ensures outcome.Returned? ==>
        |Live(old(pending))| < |old(pending)| &&
        pending == old(pending)[|Live(old(pending))| + 1..]
    {
      var tempDelay: nat := 0;
      sleeps, handled := [], [];
      ghost var consumed := 0;
      while |pending| > 0
        invariant closes == old(closes)
        invariant ServeRun(old(pending), 0) == Then(sleeps, handled, ServeRun(pending, tempDelay))
        invariant consumed <= |old(pending)| && pending == old(pending)[consumed..]
        invariant |Live(old(pending))| == consumed + |Live(pending)|
        decreases |pending|
      {
        LiveStep(pending);
        ServeStep(pending, tempDelay);
        var incoming, err := Accept();
        consumed := consumed + 1;
        if err.Some? {
          if IsTemporary(err.value) {
            if tempDelay == 0 {
              tempDelay := InitialDelay;
            } else {
              tempDelay := tempDelay * 2;
            }
            if tempDelay > MaxDelay {
              tempDelay := MaxDelay;
            }
            sleeps := sleeps + [tempDelay];
            continue;
          } else {
            Close();
            return sleeps, handled, Returned(err.value);
          }
        }
        tempDelay := 0;
        handled := handled + [incoming.value];
      }
      outcome := StillServing;
    }
  }

  /**
    `ListenAndServe`: the listen error if the socket cannot be opened,
    otherwise the accept loop's run on it and the error that ended it.
   */
  method ListenAndServe(laddr: string, net: (string, string) -> NetListen)
    returns (err: Option<NetError>, run: Option<Trace>)
    ensures net(Proto(laddr), laddr).ListenFailed? ==>
      err == Some(net(Proto(laddr), laddr).err) && run == None
    ensures net(Proto(laddr), laddr).Listening? ==>
      run == Some(ServeRun(net(Proto(laddr), laddr).accepts, 0)) &&
      err == (if run.value.outcome.Returned? then Some(run.value.outcome.err) else None)
  {
    var listener, listenErr := Listen(laddr, net);
    if listenErr.Some? {
      return listenErr, None;
    }
    var sleeps, handled, outcome := listener.Serve();
    run := Some(Trace(sleeps, handled, outcome));
    err := if outcome.Returned? then Some(outcome.err) else None;
  }

  /** A trace with `sleeps` and `handled` done before the rest of the run `t`. */
  function Then(sleeps: seq<nat>, handled: seq<IncomingConn>, t: Trace): Trace
  {
    Trace(sleeps + t.sleeps, handled + t.handled, t.outcome)
  }
}
