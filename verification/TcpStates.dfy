/** The TCP state kept per session, over whole packet histories. */
module TcpStates {
  import opened Types
  import opened Links
  import opened Handlers

  datatype Segment = Segment(flags: TcpFlags, fromClient: bool)

  function After(a: App, history: seq<Segment>): App {
    if history == [] then a
    else
      var n := |history| - 1;
      NextApp(After(a, history[..n]), history[n].flags, history[n].fromClient)
  }

  /** A TCP session nothing has happened to yet. */
  predicate Untouched(a: App) {
    a.state == StNone && !a.clientFin && !a.serverFin
  }

  predicate Reset(s: Segment) { s.flags.rst }
  predicate Fin(s: Segment, fromClient: bool) { s.flags.fin && s.fromClient == fromClient && !s.flags.rst }
  predicate Syn(s: Segment) { s.flags.syn && !s.flags.rst }
  predicate Confirms(s: Segment) { s.fromClient && s.flags.ack && !s.flags.syn && !s.flags.rst }

  ghost predicate Seen(history: seq<Segment>, p: Segment -> bool) {
    exists i: nat :: i < |history| && p(history[i])
  }

  /** Some handshake: a SYN, and later the client's acknowledgement. */
  ghost predicate Handshake(history: seq<Segment>) {
    exists i: nat, j: nat :: i < j < |history| && Syn(history[i]) && Confirms(history[j])
  }

  lemma SeenStep(history: seq<Segment>, p: Segment -> bool)
    requires history != []
    ensures Seen(history, p) <==> Seen(history[..|history| - 1], p) || p(history[|history| - 1])
  {
    var n := |history| - 1;
    var most := history[..n];
    if Seen(most, p) {
      var i: nat :| i < |most| && p(most[i]);
      assert p(history[i]);
    }
    if Seen(history, p) {
      var i: nat :| i < |history| && p(history[i]);
      if i < n { assert p(most[i]); }
    }
  }

  lemma HandshakeStep(history: seq<Segment>)
    requires history != []
    ensures Handshake(history) <==>
      Handshake(history[..|history| - 1]) || (Seen(history[..|history| - 1], Syn) && Confirms(history[|history| - 1]))
  {
    var n := |history| - 1;
    var most := history[..n];
    if Handshake(most) {
      var i: nat, j: nat :| i < j < |most| && Syn(most[i]) && Confirms(most[j]);
      assert Syn(history[i]) && Confirms(history[j]);
    }
    if Seen(most, Syn) && Confirms(history[n]) {
      var i: nat :| i < |most| && Syn(most[i]);
      assert Syn(history[i]);
    }
    if Handshake(history) {
      var i: nat, j: nat :| i < j < |history| && Syn(history[i]) && Confirms(history[j]);
      assert Syn(most[i]);
      if j < n { assert Confirms(most[j]); }
    }
  }

  /** What the state says about the history of a session: closed exactly after a reset, half-closed flags exactly
      after the side's FIN, past the handshake exactly after a SYN and then the client's acknowledgement, and
      waiting out only when both sides have finished. */
  lemma {:induction false} StateTellsHistory(a: App, history: seq<Segment>)
    requires Untouched(a)
    ensures var b := After(a, history);
            && (b.state == Closed <==> Seen(history, Reset))
            && (b.clientFin <==> Seen(history, s => Fin(s, true)))
            && (b.serverFin <==> Seen(history, s => Fin(s, false)))
            && b.state != UdpFlow
            && (!Seen(history, Reset) ==>
                  && (b.state == StNone <==> !Seen(history, Syn))
                  && (b.state in {Established, FinWait, TimeWait} <==> Handshake(history))
                  && (b.state == Established ==> !b.clientFin && !b.serverFin)
                  && (b.state in {FinWait, TimeWait} ==> b.clientFin || b.serverFin)
                  && (b.state == TimeWait ==> b.clientFin && b.serverFin))
  {
    if history != [] {
      var most := history[..|history| - 1];
      StateTellsHistory(a, most);
      SeenStep(history, Reset);
      SeenStep(history, Syn);
      SeenStep(history, s => Fin(s, true));
      SeenStep(history, s => Fin(s, false));
      HandshakeStep(history);
      hide Seen;
      hide Handshake;
    }
  }

  /** Both sides have finished and, before the last segment, the handshake was over and some side had finished. */
  ghost predicate BothFinished(history: seq<Segment>) {
    && |history| > 0
    && Seen(history, s => Fin(s, true)) && Seen(history, s => Fin(s, false))
    && var before := history[..|history| - 1];
       Handshake(before) && (Seen(before, s => Fin(s, true)) || Seen(before, s => Fin(s, false)))
  }

  /** Without resets a connection is waiting out exactly when both sides have finished and, before its last segment,
      the handshake was over and some side had finished. An acknowledged FIN is not enough, and two FINs that overtake
      the handshake need one more segment. */
  lemma TimeWaitIff(a: App, history: seq<Segment>)
    requires Untouched(a) && !Seen(history, Reset)
    ensures After(a, history).state == TimeWait <==> BothFinished(history)
  {
    StateTellsHistory(a, history);
    if history != [] {
      var before := history[..|history| - 1];
      StateTellsHistory(a, before);
      SeenStep(history, Reset);
      hide Seen;
      hide Handshake;
    }
  }

  /** How long a connection with this history may stay silent. */
  ghost function Patience(history: seq<Segment>, to: Timeouts): nat {
    if Seen(history, Reset) then to.tcpClose
    else if !Handshake(history) then to.tcpSyn
    else if !Seen(history, s => Fin(s, true)) && !Seen(history, s => Fin(s, false)) then to.tcpEstablished
    else if BothFinished(history) then to.tcpTimeWait
    else to.tcpFin
  }

  /** The timeout in force follows from the segments alone. */
  lemma TimeoutTellsHistory(a: App, history: seq<Segment>, to: Timeouts)
    requires Untouched(a)
    ensures StateTimeout(After(a, history).state, to) == Patience(history, to)
  {
    StateTellsHistory(a, history);
    if !Seen(history, Reset) { TimeWaitIff(a, history); }
    hide Seen;
    hide Handshake;
    hide After;
  }

  /** Datagrams leave the state of a flow alone and use one timeout. */
  lemma {:induction false} DatagramsHaveNoState(a: App, history: seq<Segment>, to: Timeouts)
    requires a.state == UdpFlow
    ensures After(a, history) == a && StateTimeout(After(a, history).state, to) == to.udp
  {
    if history != [] { DatagramsHaveNoState(a, history[..|history| - 1], to); }
  }
}
