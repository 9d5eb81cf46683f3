/** TCP options (section 3.1 of RFC 9293): what a receiver reads out of the option bytes, and how the
    timestamp option (section 3.2 of RFC 7323) is blanked out in place. */
module Options {
  import opened Types

  const OPT_EOL: u8 := 0
  const OPT_NOP: u8 := 1
  const OPT_TIMESTAMP: u8 := 8
  const OPT_TOA: u8 := 254

  datatype TcpOption = TcpOption(kind: u8, body: seq<u8>)

  /** A kind byte followed by a length that covers at least both and fits. */
  predicate LengthOk(o: seq<u8>) {
    |o| >= 2 && 2 <= o[1] <= |o|
  }

  /** The options a receiver sees; reading stops at the end marker or at a bad length. */
  function Decode(o: seq<u8>): seq<TcpOption>
    decreases |o|
  {
    if |o| == 0 || o[0] == OPT_EOL then []
    else if o[0] == OPT_NOP then Decode(o[1..])
    else if !LengthOk(o) then []
    else [TcpOption(o[0], o[2..o[1]])] + Decode(o[o[1]..])
  }

  function Nops(n: nat): (r: seq<u8>)
    ensures |r| == n && forall i: nat :: i < n ==> r[i] == OPT_NOP
  {
    seq(n, _ => OPT_NOP)
  }

  /** Timestamps replaced by padding, everything else as it was. */
  function Stripped(o: seq<u8>): (r: seq<u8>)
    ensures |r| == |o|
    decreases |o|
  {
    if |o| == 0 || o[0] == OPT_EOL then o
    else if o[0] == OPT_NOP then [o[0]] + Stripped(o[1..])
    else if !LengthOk(o) then o
    else (if o[0] == OPT_TIMESTAMP then Nops(o[1]) else o[..o[1]]) + Stripped(o[o[1]..])
  }

  predicate HasTimestamp(o: seq<u8>) {
    exists i: nat :: i < |Decode(o)| && Decode(o)[i].kind == OPT_TIMESTAMP
  }

  /** Timestamps are options of kind 8. */
  function WithoutTimestamps(s: seq<TcpOption>): seq<TcpOption> {
    if s == [] then []
    else if s[0].kind == 8 then WithoutTimestamps(s[1..])
    else [s[0]] + WithoutTimestamps(s[1..])
  }

  lemma {:induction false} NopsDecodeToNothing(n: nat, rest: seq<u8>)
    ensures Decode(Nops(n) + rest) == Decode(rest)
  {
    if n == 0 {
      assert Nops(0) + rest == rest;
    } else {
      assert (Nops(n) + rest)[1..] == Nops(n - 1) + rest;
      NopsDecodeToNothing(n - 1, rest);
    }
  }

  lemma {:induction false} NopsStayNops(n: nat, rest: seq<u8>)
    ensures Stripped(Nops(n) + rest) == Nops(n) + Stripped(rest)
  {
    if n == 0 {
      assert Nops(0) + rest == rest;
      assert Nops(0) + Stripped(rest) == Stripped(rest);
    } else {
      assert (Nops(n) + rest)[1..] == Nops(n - 1) + rest;
      NopsStayNops(n - 1, rest);
      assert [OPT_NOP] + (Nops(n - 1) + Stripped(rest)) == Nops(n) + Stripped(rest);
    }
  }

  /** Stripping removes exactly the timestamps from what a receiver reads. */
  lemma {:induction false} StrippedDecodes(o: seq<u8>)
    ensures Decode(Stripped(o)) == WithoutTimestamps(Decode(o))
    decreases |o|
  {
    if |o| == 0 || o[0] == OPT_EOL {
    } else if o[0] == OPT_NOP {
      StrippedDecodes(o[1..]);
      assert Stripped(o)[1..] == Stripped(o[1..]);
    } else if LengthOk(o) {
      var n: nat := o[1];
      StrippedDecodes(o[n..]);
      var rest := Stripped(o[n..]);
      var opt := TcpOption(o[0], o[2..n]);
      assert Decode(o) == [opt] + Decode(o[n..]) && Decode(o)[1..] == Decode(o[n..]);
      if o[0] == OPT_TIMESTAMP {
        NopsDecodeToNothing(n, rest);
      } else {
        var r := Stripped(o);
        assert r == o[..n] + rest;
        assert r[0] == o[0] && r[1] == n && r[2..n] == o[2..n] && r[n..] == rest;
      }
    }
  }

  /** Bytes change exactly when there is a timestamp to remove. */
  lemma {:induction false} StrippedUnchanged(o: seq<u8>)
    ensures Stripped(o) == o <==> !HasTimestamp(o)
    decreases |o|
  {
    if |o| == 0 || o[0] == OPT_EOL {
    } else if o[0] == OPT_NOP {
      StrippedUnchanged(o[1..]);
      assert Decode(o) == Decode(o[1..]);
      assert [o[0]] + o[1..] == o && Stripped(o)[1..] == Stripped(o[1..]);
    } else if LengthOk(o) {
      var n: nat := o[1];
      StrippedUnchanged(o[n..]);
      HasTimestampTail(o);
      assert o[..n] + o[n..] == o && Stripped(o)[n..] == Stripped(o[n..]);
      assert o[0] == OPT_TIMESTAMP ==> Stripped(o)[0] == OPT_NOP;
    }
  }

  /** State of the walk: `done` is final, `rest` is what is left, and nothing else of the result is missing. */
  ghost predicate Progress(o: seq<u8>, done: seq<u8>, rest: seq<u8>, changed: bool) {
    && done + Stripped(rest) == Stripped(o)
    && (changed || HasTimestamp(rest) <==> HasTimestamp(o))
  }

  /** The walk stops here: end of the options, end marker or bad length. */
  predicate Stops(rest: seq<u8>) {
    |rest| == 0 || rest[0] == OPT_EOL || (rest[0] != OPT_NOP && !LengthOk(rest))
  }

  lemma ProgressEnds(o: seq<u8>, done: seq<u8>, rest: seq<u8>, changed: bool)
    requires Progress(o, done, rest, changed) && Stops(rest)
    ensures done + rest == Stripped(o) && changed == HasTimestamp(o)
  {
  }

  lemma ProgressPadding(o: seq<u8>, done: seq<u8>, rest: seq<u8>, changed: bool)
    requires Progress(o, done, rest, changed) && |rest| > 0 && rest[0] == OPT_NOP
    ensures Progress(o, done + [OPT_NOP], rest[1..], changed)
  {
    assert Decode(rest) == Decode(rest[1..]);
    assert done + ([OPT_NOP] + Stripped(rest[1..])) == done + [OPT_NOP] + Stripped(rest[1..]);
  }

  lemma {:induction false} HasTimestampTail(rest: seq<u8>)
    requires !Stops(rest) && rest[0] != OPT_NOP
    ensures HasTimestamp(rest) <==> rest[0] == OPT_TIMESTAMP || HasTimestamp(rest[rest[1]..])
  {
    var n: nat := rest[1];
    var tail := Decode(rest[n..]);
    assert Decode(rest) == [TcpOption(rest[0], rest[2..n])] + tail;
    assert Decode(rest)[0].kind == rest[0];
    forall i: nat | i < |tail| ensures Decode(rest)[i + 1] == tail[i] { }
    if HasTimestamp(rest) && rest[0] != OPT_TIMESTAMP {
      var i: nat :| i < |Decode(rest)| && Decode(rest)[i].kind == OPT_TIMESTAMP;
      assert tail[i - 1].kind == OPT_TIMESTAMP;
    }
  }

  lemma ProgressOther(o: seq<u8>, done: seq<u8>, rest: seq<u8>, changed: bool)
    requires Progress(o, done, rest, changed) && !Stops(rest) && rest[0] != OPT_NOP && rest[0] != OPT_TIMESTAMP
    ensures Progress(o, done + rest[..rest[1]], rest[rest[1]..], changed)
  {
    HasTimestampTail(rest);
    var n: nat := rest[1];
    assert done + (rest[..n] + Stripped(rest[n..])) == done + rest[..n] + Stripped(rest[n..]);
  }

  /** After a timestamp is blanked the walk is one byte into padding. */
  lemma ProgressBlanked(o: seq<u8>, done: seq<u8>, rest: seq<u8>, changed: bool)
    requires Progress(o, done, rest, changed) && !Stops(rest) && rest[0] == OPT_TIMESTAMP
    ensures Progress(o, done + [OPT_NOP], Nops(rest[1] - 1) + rest[rest[1]..], true)
  {
    HasTimestampTail(rest);
    var n: nat, after := rest[1], rest[rest[1]..];
    NopsStayNops(n - 1, after);
    assert done + (Nops(n) + Stripped(after)) == done + [OPT_NOP] + (Nops(n - 1) + Stripped(after));
  }

  /** The in-place loop. Blanking an option also overwrites its length byte, so the walk goes on one byte
      at a time through the padding it has just written, and still reaches the next option. */
  method StripTimestamp(buf: array<u8>, start: nat, end: nat) returns (changed: bool)
    requires start <= end <= buf.Length
    modifies buf
    ensures buf[start..end] == Stripped(old(buf[start..end]))
    ensures forall i: nat :: i < buf.Length && !(start <= i < end) ==> buf[i] == old(buf[i])
    ensures changed == HasTimestamp(old(buf[start..end]))
  {
    hide Stripped;
    hide HasTimestamp;
    hide Progress;
    ghost var o := buf[start..end];
    changed := false;
    var p := start;
    StartProgress(o);
    assert buf[start..p] == [];
    while p < end
      invariant start <= p <= end
      invariant forall i: nat :: i < buf.Length && !(start <= i < end) ==> buf[i] == old(buf[i])
      invariant Progress(o, buf[start..p], buf[p..end], changed)
    {
      ghost var done, rest := buf[start..p], buf[p..end];
      var kind := buf[p];
      if kind == OPT_EOL {
        break;
      }
      if kind == OPT_NOP {
        ProgressPadding(o, done, rest, changed);
        assert buf[start..p + 1] == done + [OPT_NOP] && buf[p + 1..end] == rest[1..];
        p := p + 1;
        continue;
      }
      if p + 1 >= end || buf[p + 1] < 2 || p + buf[p + 1] > end {
        break;
      }
      if kind == OPT_TIMESTAMP {
        var n: nat := buf[p + 1];
        ProgressBlanked(o, done, rest, changed);
        assert rest[n..] == buf[p + n..end];
        Blank(buf, start, p, n, end);
        changed := true;
        p := p + buf[p + 1];
      } else {
        var n: nat := buf[p + 1];
        ProgressOther(o, done, rest, changed);
        assert buf[p + n..end] == rest[n..] && buf[start..p + n] == done + rest[..n];
        p := p + n;
      }
    }
    ProgressEnds(o, buf[start..p], buf[p..end], changed);
    assert buf[start..end] == buf[start..p] + buf[p..end];
  }

  lemma StartProgress(o: seq<u8>)
    ensures Progress(o, [], o, false)
  {
  }

  method Blank(buf: array<u8>, start: nat, p: nat, n: nat, end: nat)
    requires start <= p && n >= 2 && p + n <= end <= buf.Length
    modifies buf
    ensures forall i: nat :: i < buf.Length && !(start <= i < end) ==> buf[i] == old(buf[i])
    ensures buf[p + 1] == OPT_NOP
    ensures buf[start..p + 1] == old(buf[start..p]) + [OPT_NOP]
    ensures buf[p + 1..end] == Nops(n - 1) + old(buf[p + n..end])
  {
    hide Nops;
    forall i | p <= i < p + n { buf[i] := OPT_NOP; }
  }
}
