/** Send's chunked write and the retry of the auth token's write (transport/ble.go). */
module BleAuth {
  import opened Bytes
  import opened BleFraming

  const AUTH_RETRIES: nat := 5

  /** How one write to the characteristic ends.  A write that fails lands nothing. */
  datatype WriteResult = Landed | InProgress | WriteBroken

  /**
   What the link and the caller do: the n-th write's result, whether the n-th Send is admitted (it
   is refused while reconnecting or disconnected), whether the n-th wait is cancelled.
   */
  datatype Env = Env(writes: nat -> WriteResult, admits: nat -> bool, cancels: nat -> bool)

  /** How a Send or a retried Send ends. */
  datatype Outcome = Sent | Refused | Transient | Broken | Cancelled

  /** The bytes that reached the device, and how many writes, sends and waits there have been. */
  datatype Radio = Radio(landed: seq<byte>, writes: nat, sends: nat, waits: nat)

  datatype Attempt = Attempt(radio: Radio, outcome: Outcome)

  function NewRadio(): Radio {
    Radio([], 0, 0, 0)
  }

  /** The chunks, written one after the other until a write fails. */
  function WriteChunks(env: Env, r: Radio, chunks: seq<seq<byte>>): Attempt
    decreases |chunks|
  {
    if |chunks| == 0 then Attempt(r, Sent)
    else
      match env.writes(r.writes)
      case Landed => WriteChunks(env, r.(landed := r.landed + chunks[0], writes := r.writes + 1), chunks[1..])
      case InProgress => Attempt(r.(writes := r.writes + 1), Transient)
      case WriteBroken => Attempt(r.(writes := r.writes + 1), Broken)
  }

  function SendOnce(env: Env, r: Radio, data: seq<byte>): Attempt {
    var r' := r.(sends := r.sends + 1);
    if !env.admits(r.sends) then Attempt(r', Refused) else WriteChunks(env, r', Chunks(Frame(data)))
  }

  /** retrySend from its i-th attempt on; `last` is how the attempt before ended. */
  function Retry(env: Env, r: Radio, data: seq<byte>, attempts: nat, i: nat, last: Outcome): Attempt
    requires i <= attempts
    decreases attempts - i
  {
    if i == attempts then Attempt(r, last)
    else
      var a := SendOnce(env, r, data);
      if a.outcome != Transient then a
      else if i < attempts - 1 then
        var r' := a.radio.(waits := a.radio.waits + 1);
        if env.cancels(a.radio.waits) then Attempt(r', Cancelled)
        else Retry(env, r', data, attempts, i + 1, Transient)
      else Retry(env, a.radio, data, attempts, i + 1, Transient)
  }

  function RetrySend(env: Env, r: Radio, data: seq<byte>, attempts: nat): Attempt {
    Retry(env, r, data, attempts, 0, Sent)
  }

  /** bleAuthAttempts: only a token whose frame is a single chunk may be tried again. */
  function AuthAttempts(token: seq<byte>): nat {
    if |token| + 1 > CHUNK_SIZE then 1 else AUTH_RETRIES
  }

  class Writer {
    const env: Env
    var landed: seq<byte>
    var writes: nat
    var sends: nat
    var waits: nat

    function View(): Radio
      reads this
    {
      Radio(landed, writes, sends, waits)
    }

    constructor (env: Env)
      ensures this.env == env && View() == NewRadio()
    {
      this.env := env;
      landed, writes, sends, waits := [], 0, 0, 0;
    }

    method Write(chunk: seq<byte>) returns (result: WriteResult)
      modifies this
      ensures result == env.writes(old(writes))
      ensures View() == old(View()).(
                          writes := old(writes) + 1,
                          landed := if result == Landed then old(landed) + chunk else old(landed))
    {
      result := env.writes(writes);
      writes := writes + 1;
      if result == Landed {
        landed := landed + chunk;
      }
    }

    /** Send: the loop over chunks. */
    method Send(data: seq<byte>) returns (outcome: Outcome)
      modifies this
      ensures Attempt(View(), outcome) == SendOnce(env, old(View()), data)
    {
      var admitted := env.admits(sends);
      sends := sends + 1;
      if !admitted {
        return Refused;
      }
      var payload := data + [NEWLINE];
      var i := 0;
      while i < |payload|
        invariant 0 <= i <= |payload|
        invariant sends == old(sends) + 1 && waits == old(waits)
        invariant WriteChunks(env, View(), Chunks(payload[i..])) == SendOnce(env, old(View()), data)
        decreases |payload| - i
      {
        var end := if i + CHUNK_SIZE > |payload| then |payload| else i + CHUNK_SIZE;
        ghost var chunks := Chunks(payload[i..]);
        assert chunks[0] == payload[i..end] && chunks[1..] == Chunks(payload[end..]) by {
          assert end < |payload| ==> payload[i..][CHUNK_SIZE..] == payload[end..];
          assert end == |payload| ==> payload[i..] == payload[i..end] && Chunks(payload[end..]) == [];
        }
        var result := Write(payload[i..end]);
        match result {
          case Landed =>
          case InProgress => return Transient;
          case WriteBroken => return Broken;
        }
        i := end;
      }
      outcome := Sent;
    }

    /** retrySend around Send. */
    method SendWithRetry(data: seq<byte>, attempts: nat) returns (outcome: Outcome)
      modifies this
      ensures Attempt(View(), outcome) == RetrySend(env, old(View()), data, attempts)
    {
      outcome := Sent;
      var i := 0;
      while i < attempts
        invariant 0 <= i <= attempts
        invariant Retry(env, View(), data, attempts, i, outcome) == RetrySend(env, old(View()), data, attempts)
        decreases attempts - i
      {
        outcome := Send(data);
        if outcome != Transient {
          return;
        }
        if i < attempts - 1 {
          var cancelled := env.cancels(waits);
          waits := waits + 1;
          if cancelled {
            return Cancelled;
          }
        }
        i := i + 1;
      }
    }
  }
}

module BleAuthTheorems {
  import opened Bytes
  import opened BleFraming
  import opened BleFramingTheorems
  import opened BleAuth

  /** What one pass over the chunks lands: all of them exactly if it succeeds, else a proper prefix. */
  lemma {:induction false} PassLandsPrefix(env: Env, r: Radio, chunks: seq<seq<byte>>)
    requires forall k :: 0 <= k < |chunks| ==> |chunks[k]| > 0
    ensures var a := WriteChunks(env, r, chunks);
            && r.landed <= a.radio.landed <= r.landed + Concat(chunks)
            && (a.outcome == Sent <==> a.radio.landed == r.landed + Concat(chunks))
            && (a.outcome == Sent || a.outcome == Transient || a.outcome == Broken)
            && (|chunks| == 1 && a.outcome != Sent ==> a.radio.landed == r.landed)
    decreases |chunks|
  {
    if |chunks| > 0 {
      assert r.landed + Concat(chunks) == (r.landed + chunks[0]) + Concat(chunks[1..]);
      var r' := r.(landed := r.landed + chunks[0], writes := r.writes + 1);
      PassLandsPrefix(env, r', chunks[1..]);
    }
  }

  lemma SendLandsPrefix(env: Env, r: Radio, data: seq<byte>)
    ensures var a := SendOnce(env, r, data);
            && r.landed <= a.radio.landed <= r.landed + Frame(data)
            && (a.outcome == Sent <==> a.radio.landed == r.landed + Frame(data))
            && (a.outcome != Cancelled)
            && (|data| + 1 <= CHUNK_SIZE && a.outcome != Sent ==> a.radio.landed == r.landed)
  {
    ChunksCover(Frame(data));
    PassLandsPrefix(env, r.(sends := r.sends + 1), Chunks(Frame(data)));
  }

  /** A single-chunk message lands whole or not at all, however often it is tried. */
  lemma {:induction false} SingleChunkRetry(env: Env, r: Radio, data: seq<byte>, attempts: nat, i: nat)
    requires |data| + 1 <= CHUNK_SIZE && i < attempts
    ensures forall last :: Retry(env, r, data, attempts, i, last) == Retry(env, r, data, attempts, i, Transient)
    ensures var a := Retry(env, r, data, attempts, i, Transient);
            && (a.outcome == Sent <==> a.radio.landed == r.landed + Frame(data))
            && (a.outcome != Sent ==> a.radio.landed == r.landed)
    decreases attempts - i
  {
    var a := SendOnce(env, r, data);
    SendLandsPrefix(env, r, data);
    if a.outcome == Transient && i < attempts - 1 && !env.cancels(a.radio.waits) {
      SingleChunkRetry(env, a.radio.(waits := a.radio.waits + 1), data, attempts, i + 1);
    }
  }

  /** Retrying is safe: the bytes landed are a prefix of the frame, all of it exactly on success. */
  ghost predicate RetryIsSafe(data: seq<byte>, attempts: nat) {
    forall env: Env ::
      var a := RetrySend(env, NewRadio(), data, attempts);
      a.radio.landed <= Frame(data) && (a.outcome == Sent <==> a.radio.landed == Frame(data))
  }

  lemma RetryLandsPrefix(env: Env, data: seq<byte>, attempts: nat)
    requires attempts == 1 || (attempts > 0 && |data| + 1 <= CHUNK_SIZE)
    ensures var a := RetrySend(env, NewRadio(), data, attempts);
            a.radio.landed <= Frame(data) && (a.outcome == Sent <==> a.radio.landed == Frame(data))
  {
    assert [] + Frame(data) == Frame(data);
    if attempts == 1 {
      SendLandsPrefix(env, NewRadio(), data);
    } else {
      SingleChunkRetry(env, NewRadio(), data, attempts, 0);
    }
  }

  /**
   The auth token's write never lands a byte twice: for every token and every sequence of write
   results, refusals and cancellations, what landed is a prefix of token plus newline, and the whole
   of it exactly when the retried Send reports success.
   */
  lemma AuthWriteIsSafe(token: seq<byte>)
    ensures RetryIsSafe(token, AuthAttempts(token))
  {
    forall env: Env
      ensures var a := RetrySend(env, NewRadio(), token, AuthAttempts(token));
              a.radio.landed <= Frame(token) && (a.outcome == Sent <==> a.radio.landed == Frame(token))
    {
      RetryLandsPrefix(env, token, AuthAttempts(token));
    }
  }

  /** The second write of the first try fails for the moment; everything else lands. */
  function SecondWriteFails(): Env {
    Env(n => if n == 1 then InProgress else Landed, _ => true, _ => false)
  }

  lemma {:induction false} EverythingLands(r: Radio, chunks: seq<seq<byte>>)
    requires r.writes > 1
    ensures var a := WriteChunks(SecondWriteFails(), r, chunks);
            a.outcome == Sent && a.radio.landed == r.landed + Concat(chunks)
    decreases |chunks|
  {
    if |chunks| > 0 {
      EverythingLands(r.(landed := r.landed + chunks[0], writes := r.writes + 1), chunks[1..]);
    }
  }

  /** A second try of a message of several chunks repeats the first chunk. */
  lemma SecondTryRepeats(data: seq<byte>, attempts: nat)
    requires attempts > 1 && |data| > 239
    ensures RetrySend(SecondWriteFails(), NewRadio(), data, attempts).radio.landed ==
            Frame(data)[..240] + Frame(data)
  {
    var env, chunks := SecondWriteFails(), Chunks(Frame(data));
    ChunksCover(Frame(data));
    assert |chunks| > 1 && chunks[0] == Frame(data)[..CHUNK_SIZE];
    var r1 := NewRadio().(sends := 1);
    var r2 := r1.(landed := chunks[0], writes := 1);
    assert r1.landed + chunks[0] == chunks[0];
    assert WriteChunks(env, r2, chunks[1..]) == Attempt(r2.(writes := 2), Transient);
    assert WriteChunks(env, r1, chunks) == Attempt(r2.(writes := 2), Transient);
    var r3 := r2.(writes := 2, waits := 1);
    EverythingLands(r3.(sends := 2), chunks);
    assert SendOnce(env, r3, data).outcome == Sent;
    assert Retry(env, r3, data, attempts, 1, Transient) == SendOnce(env, r3, data);
  }

  /**
   The bound on the attempts is exact: trying a message again is safe exactly when it is tried once,
   or at least once and its frame is a single chunk.
   */
  lemma RetryIsSafeExactly(data: seq<byte>, attempts: nat)
    ensures RetryIsSafe(data, attempts) <==> attempts == 1 || (attempts > 0 && |data| <= 239)
  {
    if attempts == 1 || (attempts > 0 && |data| + 1 <= CHUNK_SIZE) {
      forall env: Env
        ensures var a := RetrySend(env, NewRadio(), data, attempts);
                a.radio.landed <= Frame(data) && (a.outcome == Sent <==> a.radio.landed == Frame(data))
      {
        RetryLandsPrefix(env, data, attempts);
      }
    } else if attempts == 0 {
      var a := RetrySend(SecondWriteFails(), NewRadio(), data, 0);
      assert a.outcome == Sent && a.radio.landed != Frame(data);
    } else {
      SecondTryRepeats(data, attempts);
      assert |RetrySend(SecondWriteFails(), NewRadio(), data, attempts).radio.landed| > |Frame(data)|;
    }
  }

  // ---- how the auth write ends ----

  /** Try k was admitted, found the link in progress, and was followed by a wait that was not cancelled. */
  predicate GoesOn(env: Env, k: nat) {
    env.admits(k) && env.writes(k) == InProgress && !env.cancels(k)
  }

  /** Every try before k went on. */
  ghost predicate Reaches(env: Env, k: nat) {
    forall j: nat :: j < k ==> GoesOn(env, j)
  }

  /** How try k, of five, ends the write, unless it goes on. */
  predicate EndsAt(env: Env, token: seq<byte>, k: nat, a: Attempt) {
    if !env.admits(k) then a == Attempt(Radio([], k, k + 1, k), Refused)
    else
      match env.writes(k)
      case Landed => a == Attempt(Radio(token + [10], k + 1, k + 1, k), Sent)
      case WriteBroken => a == Attempt(Radio([], k + 1, k + 1, k), Broken)
      case InProgress =>
        if k == 4 then a == Attempt(Radio([], 5, 5, 4), Transient)
        else a == Attempt(Radio([], k + 1, k + 1, k + 1), Cancelled)
  }

  lemma OneChunk(env: Env, r: Radio, chunk: seq<byte>)
    ensures WriteChunks(env, r, [chunk]) ==
            match env.writes(r.writes)
            case Landed => Attempt(r.(landed := r.landed + chunk, writes := r.writes + 1), Sent)
            case InProgress => Attempt(r.(writes := r.writes + 1), Transient)
            case WriteBroken => Attempt(r.(writes := r.writes + 1), Broken)
  {
    var chunks := [chunk];
    assert chunks[1..] == [];
  }

  lemma ShortTokenIsOneWrite(env: Env, r: Radio, token: seq<byte>)
    requires |token| <= 239
    ensures SendOnce(env, r, token) ==
            if !env.admits(r.sends) then Attempt(r.(sends := r.sends + 1), Refused)
            else
              var tried := r.(sends := r.sends + 1, writes := r.writes + 1);
              match env.writes(r.writes)
              case Landed => Attempt(tried.(landed := r.landed + (token + [10])), Sent)
              case InProgress => Attempt(tried, Transient)
              case WriteBroken => Attempt(tried, Broken)
  {
    var chunks := Chunks(Frame(token));
    assert chunks == [token + [10]];
    OneChunk(env, r.(sends := r.sends + 1), token + [10]);
  }

  lemma {:induction false} RetryFrom(env: Env, token: seq<byte>, i: nat, last: Outcome)
    requires |token| <= 239 && i < 5
    ensures var a := Retry(env, Radio([], i, i, i), token, 5, i, last);
            if i < 4 && GoesOn(env, i) then a == Retry(env, Radio([], i + 1, i + 1, i + 1), token, 5, i + 1, Transient)
            else EndsAt(env, token, i, a)
  {
    ShortTokenIsOneWrite(env, Radio([], i, i, i), token);
    assert [] + (token + [10]) == token + [10];
  }

  lemma {:induction false} RetryEnds(env: Env, token: seq<byte>, i: nat, k: nat, last: Outcome)
    requires |token| <= 239 && i <= k < 5
    requires Reaches(env, k) && (k == 4 || !GoesOn(env, k))
    ensures EndsAt(env, token, k, Retry(env, Radio([], i, i, i), token, 5, i, last))
    decreases k - i
  {
    RetryFrom(env, token, i, last);
    if i < k {
      RetryEnds(env, token, i + 1, k, Transient);
    }
  }

  /** One of the five tries is the last. */
  lemma LastTry(env: Env) returns (k: nat)
    ensures k < 5 && Reaches(env, k) && (k == 4 || !GoesOn(env, k))
  {
    k := 0;
    while k < 4 && GoesOn(env, k)
      invariant k < 5 && Reaches(env, k)
    {
      k := k + 1;
    }
  }

  /**
   How the write of the auth token ends, whatever the link does.  A token of at most 239 bytes is tried
   until a try does not go on, at most five times: the write succeeds exactly if one of the five lands
   and all before it went on, five in progress end it Transient, and any other end of a try is its
   end.  A longer token is tried once.
   */
  lemma AuthWriteExactly(env: Env, token: seq<byte>)
    ensures var a := RetrySend(env, NewRadio(), token, AuthAttempts(token));
            if |token| <= 239 then
              && (forall k: nat :: k < 5 && Reaches(env, k) && (k == 4 || !GoesOn(env, k)) ==> EndsAt(env, token, k, a))
              && (a.outcome == Sent <==>
                    exists k: nat :: k < 5 && Reaches(env, k) && env.admits(k) && env.writes(k) == Landed)
            else a.radio.sends == 1 && a.radio.waits == 0 && a == SendOnce(env, NewRadio(), token)
  {
    var a := RetrySend(env, NewRadio(), token, AuthAttempts(token));
    if |token| <= 239 {
      forall k: nat | k < 5 && Reaches(env, k) && (k == 4 || !GoesOn(env, k))
        ensures EndsAt(env, token, k, a)
      {
        RetryEnds(env, token, 0, k, Sent);
      }
      var k := LastTry(env);
      if j: nat :| j < 5 && Reaches(env, j) && env.admits(j) && env.writes(j) == Landed {
        assert !GoesOn(env, j);
      }
    } else {
      WritingOnlyWrites(env, NewRadio().(sends := 1), Chunks(Frame(token)));
    }
  }

  lemma {:induction false} WritingOnlyWrites(env: Env, r: Radio, chunks: seq<seq<byte>>)
    ensures WriteChunks(env, r, chunks).radio.sends == r.sends
    ensures WriteChunks(env, r, chunks).radio.waits == r.waits
    decreases |chunks|
  {
    if |chunks| > 0 {
      WritingOnlyWrites(env, r.(landed := r.landed + chunks[0], writes := r.writes + 1), chunks[1..]);
    }
  }

  // ---- several Sends ----

  /** One Send of a list: the message, what it landed, and whether it succeeded. */
  datatype Sending = Sending(message: seq<byte>, landed: seq<byte>, ok: bool)

  /** The Sends of the messages, one after the other, and where the radio is then. */
  function SendAll(env: Env, r: Radio, messages: seq<seq<byte>>): (Radio, seq<Sending>)
    decreases |messages|
  {
    if |messages| == 0 then (r, [])
    else
      var a := SendOnce(env, r, messages[0]);
      var (last, rest) := SendAll(env, a.radio, messages[1..]);
      (last, [Sending(messages[0], Beyond(r.landed, a.radio.landed), a.outcome == Sent)] + rest)
  }

  /** What comes in `all` after `before`. */
  function Beyond(before: seq<byte>, all: seq<byte>): seq<byte> {
    if |before| <= |all| then all[|before|..] else []
  }

  /** The messages whose Send succeeded, in order. */
  function Succeeded(log: seq<Sending>): seq<seq<byte>> {
    if |log| == 0 then [] else (if log[0].ok then [log[0].message] else []) + Succeeded(log[1..])
  }

  function AllLanded(log: seq<Sending>): seq<byte> {
    if |log| == 0 then [] else log[0].landed + AllLanded(log[1..])
  }

  /** A Send lands a prefix of its frame, the whole of it exactly if it succeeds. */
  predicate IsSending(x: Sending) {
    IsMessage(x.message) && x.landed <= Frame(x.message) && (x.ok <==> x.landed == Frame(x.message))
  }

  /** No failed Send has landed anything. */
  ghost predicate FailsClean(log: seq<Sending>) {
    forall x :: x in log && !x.ok ==> x.landed == []
  }

  lemma {:induction false} SendAllLands(env: Env, r: Radio, messages: seq<seq<byte>>)
    requires forall m :: m in messages ==> IsMessage(m)
    ensures var (last, log) := SendAll(env, r, messages);
            && last.landed == r.landed + AllLanded(log)
            && |log| == |messages|
            && (forall k :: 0 <= k < |log| ==> log[k].message == messages[k] && IsSending(log[k]))
    decreases |messages|
  {
    if |messages| > 0 {
      var a := SendOnce(env, r, messages[0]);
      var x := Sending(messages[0], Beyond(r.landed, a.radio.landed), a.outcome == Sent);
      SendIsSending(env, r, messages[0]);
      SendAllLands(env, a.radio, messages[1..]);
      ConsSending(x, SendAll(env, a.radio, messages[1..]).1, messages);
      Assoc(r.landed, x.landed, AllLanded(SendAll(env, a.radio, messages[1..]).1));
    }
  }

  lemma SendIsSending(env: Env, r: Radio, message: seq<byte>)
    requires IsMessage(message)
    ensures var a := SendOnce(env, r, message);
            var landed := Beyond(r.landed, a.radio.landed);
            a.radio.landed == r.landed + landed && IsSending(Sending(message, landed, a.outcome == Sent))
  {
    var a := SendOnce(env, r, message);
    SendLandsPrefix(env, r, message);
    PrefixBeyond(r.landed, Beyond(r.landed, a.radio.landed), Frame(message));
  }

  lemma ConsSending(x: Sending, rest: seq<Sending>, messages: seq<seq<byte>>)
    requires |messages| > 0 && |rest| == |messages| - 1 && x.message == messages[0] && IsSending(x)
    requires forall k :: 0 <= k < |rest| ==> rest[k].message == messages[1..][k] && IsSending(rest[k])
    ensures var log := [x] + rest;
            && (forall k :: 0 <= k < |log| ==> log[k].message == messages[k] && IsSending(log[k]))
            && AllLanded(log) == x.landed + AllLanded(rest)
  {
    assert ([x] + rest)[1..] == rest;
  }

  lemma Assoc(a: seq<byte>, b: seq<byte>, c: seq<byte>)
    ensures a + b + c == a + (b + c)
  {
  }

  lemma PrefixBeyond(front: seq<byte>, a: seq<byte>, b: seq<byte>)
    ensures front + a <= front + b ==> a <= b
    ensures front + a == front + b <==> a == b
  {
    assert (front + a)[|front|..] == a && (front + b)[|front|..] == b;
    if front + a <= front + b {
      assert front + a == (front + b)[..|front + a|];
      assert forall k :: 0 <= k < |a| ==> a[k] == (front + a)[|front| + k] == (front + b)[|front| + k] == b[k];
    }
  }

  /** A failed Send ends no line. */
  lemma FailedHasNoNewline(x: Sending)
    requires IsSending(x) && !x.ok
    ensures NEWLINE !in x.landed
  {
    assert |x.landed| == |Frame(x.message)| ==> x.landed == Frame(x.message);
    assert forall k :: 0 <= k < |x.landed| ==> x.landed[k] == Frame(x.message)[k] == x.message[k];
  }

  /** What a device that has `buf` of an unfinished line makes of the Sends. */
  lemma {:induction false} LinesOfSends(buf: seq<byte>, log: seq<Sending>)
    requires NEWLINE !in buf && forall k :: 0 <= k < |log| ==> IsSending(log[k])
    ensures |LinesOf(buf, AllLanded(log))| == |Succeeded(log)|
    ensures LinesOf(buf, AllLanded(log)) == Succeeded(log) && RestOf(buf, AllLanded(log)) == []
            <==> buf == [] && FailsClean(log)
    decreases |log|
  {
    if |log| > 0 {
      var x, rest := log[0], log[1..];
      assert IsSending(x);
      assert log == [x] + rest;
      assert FailsClean(log) <==> (!x.ok ==> x.landed == []) && FailsClean(rest);
      LinesConcat(buf, x.landed, AllLanded(rest));
      if x.ok {
        FrameEndsLine(buf, x.message);
        LinesOfSends([], rest);
        ConsEqual(buf + x.message, LinesOf([], AllLanded(rest)), x.message, Succeeded(rest));
        assert buf + x.message == x.message ==> |buf| == 0;
      } else {
        FailedHasNoNewline(x);
        CleanBytesOnlyCollect(buf, x.landed);
        LinesOfSends(buf + x.landed, rest);
        assert LinesOf(buf, AllLanded(log)) == LinesOf(buf + x.landed, AllLanded(rest));
        assert Succeeded(log) == Succeeded(rest);
        assert buf + x.landed == [] <==> |buf| + |x.landed| == 0;
      }
    }
  }

  lemma ConsEqual<T>(a: T, s: seq<T>, b: T, t: seq<T>)
    ensures [a] + s == [b] + t <==> a == b && s == t
  {
    if [a] + s == [b] + t {
      assert ([a] + s)[0] == ([b] + t)[0] && ([a] + s)[1..] == ([b] + t)[1..];
    }
  }

  /**
   Over any list of Sends, whatever the link does: the device gets a line for each that succeeds, and
   the lines are exactly those messages, with nothing left over, exactly if no Send that failed had
   landed some of its chunks.  (Otherwise the next message that succeeds is joined to them.)
   */
  lemma DeviceSeesExactly(env: Env, messages: seq<seq<byte>>)
    requires forall m :: m in messages ==> IsMessage(m)
    ensures var (last, log) := SendAll(env, NewRadio(), messages);
            && |LinesOf([], last.landed)| == |Succeeded(log)|
            && (LinesOf([], last.landed) == Succeeded(log) && RestOf([], last.landed) == []
                <==> FailsClean(log))
  {
    var (last, log) := SendAll(env, NewRadio(), messages);
    SendAllLands(env, NewRadio(), messages);
    assert last.landed == AllLanded(log);
    LinesOfSends([], log);
  }
}
