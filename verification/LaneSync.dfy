/** Both ends of a lane stay aligned, whatever is asked and whatever the guest's kernel answers. */
module LaneSync {
  import opened Wrappers
  import opened LittleEndian
  import opened LaneWire

  lemma TakeFront(a: Bytes, b: Bytes)
    ensures Take(a + b, |a|) == Some((a, b))
  {
    assert (a + b)[..|a|] == a && (a + b)[|a|..] == b;
  }

  // ---------------------------------------------------------------------------
  // Syscalls

  lemma ReadArgReads(arg: Arg, after: Bytes)
    requires Fits(arg)
    ensures ReadArg(KindOf(arg), ValueOf(arg), (if arg.In? then arg.blob else []) + after) == Some((arg, after))
  {
    if arg.In? {
      TakeFront(arg.blob, after);
    } else {
      assert [] + after == after;
    }
  }

  lemma EncodedHead(args: seq<Arg>, rest: Bytes)
    requires AllFit(args) && args != []
    ensures Fits(args[0]) && AllFit(args[1..])
    ensures Kinds(args) == [KindOf(args[0])] + Kinds(args[1..])
    ensures Values(args) == Le64(ValueOf(args[0])) + Values(args[1..])
    ensures Blobs(args) + rest == (if args[0].In? then args[0].blob else []) + (Blobs(args[1..]) + rest)
  {
    hide Le64, KindOf, ValueOf, Fits;
  }

  lemma {:induction false} ReadArgsOfEncoded(args: seq<Arg>, rest: Bytes)
    requires AllFit(args)
    ensures ReadArgs(Kinds(args), Values(args), Blobs(args) + rest) == Some((args, rest))
    decreases |args|
  {
    if args == [] {
      assert Blobs(args) + rest == rest;
    } else {
      hide Le64, Load64, ReadArg, KindOf, ValueOf, Fits, AllFit, Kinds, Values, Blobs;
      var value, tail := ValueOf(args[0]), args[1..];
      EncodedHead(args, rest);
      Load64Le64(value, Values(tail));
      assert Values(args)[8..] == Values(tail);
      assert Kinds(args)[1..] == Kinds(tail);
      ReadArgReads(args[0], Blobs(tail) + rest);
      ReadArgsOfEncoded(tail, rest);
      assert [args[0]] + tail == args;
    }
  }

  lemma {:induction false} PaddedBlobs(args: seq<Arg>)
    requires |args| <= 6
    ensures Blobs(Padded(args)) == Blobs(args) && Outs(Padded(args)) == Outs(args)
    decreases 6 - |args|
  {
    if |args| < 6 {
      PaddedBlobs(args + [Scalar(0)]);
      ScalarAdds(args);
    }
  }

  lemma {:induction false} ScalarAdds(args: seq<Arg>)
    ensures Blobs(args + [Scalar(0)]) == Blobs(args) && Outs(args + [Scalar(0)]) == Outs(args)
    decreases |args|
  {
    if args != [] {
      ScalarAdds(args[1..]);
      assert (args + [Scalar(0)])[1..] == args[1..] + [Scalar(0)];
    }
  }

  lemma HeaderParts(nr: u32, kinds: Bytes, values: Bytes)
    requires |kinds| == 6 && |values| == 48
    ensures var header := Le32(nr) + kinds + values;
            |header| == 58 && Load32(header) == nr && header[4..10] == kinds && header[10..] == values
  {
    hide Le32, Load32;
    Load32Le32(nr, kinds + values);
    assert Le32(nr) + (kinds + values) == Le32(nr) + kinds + values;
  }

  lemma ReadSyscallReads(nr: u32, args: seq<Arg>, rest: Bytes)
    requires |args| == 6 && AllFit(args)
    ensures ReadSyscall(Le32(nr) + Kinds(args) + Values(args) + (Blobs(args) + rest))
         == Some((SeenSyscall(nr, args), rest))
  {
    hide Le32, Load32, Kinds, Values, Blobs, ReadArgs, AllFit;
    HeaderParts(nr, Kinds(args), Values(args));
    TakeFront(Le32(nr) + Kinds(args) + Values(args), Blobs(args) + rest);
    ReadArgsOfEncoded(args, rest);
  }

  /** The agent reads back the call, and nothing beyond it. */
  lemma SyscallRead(nr: u32, args: seq<Arg>, rest: Bytes)
    requires |args| <= 6 && AllFit(args)
    ensures ReadRequest(Encode(Syscall(nr, args)) + rest) == Some((SeenSyscall(nr, Padded(args)), rest))
  {
    hide Le32, Kinds, Values, Blobs, ReadSyscall, Padded, AllFit;
    PaddedFits(args);
    PaddedBlobs(args);
    var kinds, values := Kinds(Padded(args)), Values(Padded(args));
    var body := Le32(nr) + kinds + values + (Blobs(args) + rest);
    ReadSyscallReads(nr, Padded(args), rest);
    assert Encode(Syscall(nr, args)) + rest == [1] + body;
    TakeFront([1], body);
  }

  /** The kind and value that stand for an argument on the wire. */
  predicate StandsFor(kind: byte, value: u64, arg: Arg)
  {
    match arg
    case Scalar(v) => kind == 0 && value == v
    case In(blob) => kind == 1 && value == |blob|
    case Out(capacity, retSized) => kind == (if retSized then 3 else 2) && value == capacity
  }

  lemma {:induction false} KindAndValueAt(args: seq<Arg>, i: nat)
    requires AllFit(args) && i < |args|
    ensures StandsFor(Kinds(args)[i], Load64(Values(args)[8 * i..]), args[i])
    decreases |args|
  {
    hide Load64, Le64;
    if i == 0 {
      Load64Le64(ValueOf(args[0]), Values(args[1..]));
      assert Values(args)[0..] == Values(args);
    } else {
      KindAndValueAt(args[1..], i - 1);
      assert Values(args)[8 * i..] == Values(args[1..])[8 * (i - 1)..];
    }
  }

  lemma {:induction false} PaddedKeeps(args: seq<Arg>)
    requires |args| <= 6
    ensures args <= Padded(args)
    decreases 6 - |args|
  {
    if |args| < 6 { PaddedKeeps(args + [Scalar(0)]); }
  }

  /** Where the agent's packed struct has the fields of a syscall: a kind, a number, six kinds and six values. */
  lemma SyscallLayout(nr: u32, args: seq<Arg>, i: nat)
    requires |args| <= 6 && AllFit(args) && i < |args|
    ensures var b := Encode(Syscall(nr, args));
            && |b| >= 59 && b[0] == 1 && Load32(b[1..]) == nr
            && StandsFor(b[5 + i], Load64(b[11 + 8 * i..]), args[i])
  {
    hide Le32, Load32, Load64, Kinds, Values, Blobs, AllFit;
    PaddedFits(args);
    PaddedKeeps(args);
    var all := Padded(args);
    var kinds, values := Kinds(all), Values(all);
    KindAndValueAt(all, i);
    var b := Encode(Syscall(nr, args));
    Load32Le32(nr, kinds + (values + Blobs(args)));
    assert b[1..] == Le32(nr) + (kinds + (values + Blobs(args)));
    assert b[5..] == kinds + (values + Blobs(args));
    assert b[11 + 8 * i..] == values[8 * i..] + Blobs(args);
    Load64Front(values[8 * i..], Blobs(args));
  }

  lemma Load64Front(b: Bytes, rest: Bytes)
    requires |b| >= 8
    ensures Load64(b + rest) == Load64(b)
  {
    assert forall i :: 0 <= i < 8 ==> (b + rest)[i] == b[i];
  }

  lemma {:induction false} OutsReadBack(outs: seq<Arg>, buffers: seq<Bytes>, ret: i64, rest: Bytes)
    requires Filled(outs, buffers)
    ensures ReadOuts(outs, ret, OutBytes(outs, buffers, ret) + rest) == Some((Truncated(outs, buffers, ret), rest))
    decreases |outs|
  {
    if outs == [] {
      assert OutBytes(outs, buffers, ret) + rest == rest;
    } else {
      var b, after := buffers[0][..TakenFrom(outs[0], ret)], OutBytes(outs[1..], buffers[1..], ret) + rest;
      assert OutBytes(outs, buffers, ret) + rest == b + after;
      TakeFront(b, after);
      OutsReadBack(outs[1..], buffers[1..], ret, rest);
    }
  }

  /** What the host gets of every out buffer. */
  function Truncated(outs: seq<Arg>, buffers: seq<Bytes>, ret: i64): seq<Bytes>
    requires Filled(outs, buffers)
  {
    if outs == [] then []
    else [buffers[0][..TakenFrom(outs[0], ret)]] + Truncated(outs[1..], buffers[1..], ret)
  }

  /**
   What the host gets of the i-th out buffer is its beginning: all of it, or, where
   the result gives the size, as many bytes as the result says and there are.
   */
  lemma {:induction false} OutsAreBeginnings(outs: seq<Arg>, buffers: seq<Bytes>, ret: i64)
    requires Filled(outs, buffers)
    ensures var got := Truncated(outs, buffers, ret);
            && |got| == |buffers|
            && forall i :: 0 <= i < |got| ==>
                             && got[i] <= buffers[i]
                             && (!outs[i].retSized ==> got[i] == buffers[i])
                             && (outs[i].retSized && ret < 0 ==> got[i] == [])
                             && (outs[i].retSized && 0 <= ret <= |buffers[i]| ==> |got[i]| == ret)
                             && (ret > |buffers[i]| ==> got[i] == buffers[i])
    decreases |outs|
  {
    if outs != [] {
      OutsAreBeginnings(outs[1..], buffers[1..], ret);
      var got := Truncated(outs, buffers, ret);
      forall i | 1 <= i < |got| ensures got[i] == Truncated(outs[1..], buffers[1..], ret)[i - 1] {
      }
    }
  }

  lemma HeadReadBack(ret: i64, errno: u32, rest: Bytes)
    ensures var b := ReplyHead(ret, errno);
            && Take(b + rest, 12) == Some((b, rest))
            && Signed64(Load64(b)) == ret && Load32(b[8..]) == errno
  {
    hide Le32, Le64, Load32, Load64, Signed64, Unsigned64;
    TakeFront(ReplyHead(ret, errno), rest);
    Load64Le64(Unsigned64(ret), Le32(errno));
    SignedUnsigned(ret);
    Load32Le32(errno, []);
    assert ReplyHead(ret, errno)[8..] == Le32(errno) + [];
  }

  // ---------------------------------------------------------------------------
  // Spawns

  /** A string that cursor_string takes. */
  predicate Acceptable(s: Bytes)
  {
    |s| <= MaxString && 0 !in s
  }

  predicate AllAcceptable(strings: seq<Bytes>)
  {
    forall i :: 0 <= i < |strings| ==> Acceptable(strings[i])
  }

  lemma CursorU32Reads(x: u32, rest: Bytes)
    ensures CursorU32(Le32(x) + rest) == Some((x, rest))
  {
    Load32Le32(x, rest);
    assert (Le32(x) + rest)[4..] == rest;
  }

  lemma CursorStringReads(s: Bytes, rest: Bytes)
    requires |s| < 0x1_0000_0000
    ensures CursorString(StringBytes(s) + rest) == if Acceptable(s) then Some((s, rest)) else None
  {
    hide Le32, CursorU32;
    CursorU32Reads(|s|, s + rest);
    assert StringBytes(s) + rest == Le32(|s|) + (s + rest);
    assert (s + rest)[..|s|] == s && (s + rest)[|s|..] == rest;
  }

  lemma {:induction false} CursorStringsRead(strings: seq<Bytes>, rest: Bytes)
    requires AllShort(strings)
    ensures CursorStrings(StringsBytes(strings) + rest, |strings|)
         == if AllAcceptable(strings) then Some((strings, rest)) else None
    decreases |strings|
  {
    hide CursorString, StringBytes, Acceptable;
    if strings == [] {
      assert StringsBytes(strings) + rest == rest;
    } else {
      var after := StringsBytes(strings[1..]) + rest;
      assert StringsBytes(strings) + rest == StringBytes(strings[0]) + after;
      CursorStringReads(strings[0], after);
      CursorStringsRead(strings[1..], rest);
      assert [strings[0]] + strings[1..] == strings;
      assert AllAcceptable(strings) <==> Acceptable(strings[0]) && AllAcceptable(strings[1..]) by {
        assert forall i :: 1 <= i < |strings| ==> strings[i] == strings[1..][i - 1];
      }
    }
  }

  /** The spawns the agent will try. */
  predicate SpawnValid(argv: seq<Bytes>, cwd: Bytes, env: seq<Bytes>)
  {
    && 1 <= |argv| <= MaxArguments && AllAcceptable(argv) && Acceptable(cwd)
    && |env| <= MaxEnvironment && AllAcceptable(env) && AllHaveEquals(env)
  }

  /** The payload parses back to exactly what was sent if that is valid, and otherwise to nothing. */
  lemma SpawnParses(argv: seq<Bytes>, cwd: Bytes, env: seq<Bytes>)
    requires Encodable(argv, cwd, env)
    ensures ParseSpawn(SpawnPayload(argv, cwd, env))
         == if SpawnValid(argv, cwd, env) then Some(SpawnArgs(argv, cwd, env)) else None
  {
    hide Le32, StringBytes, StringsBytes, CursorU32, CursorString, CursorStrings, AllAcceptable, Acceptable,
      AllHaveEquals;
    var afterEnvc := StringsBytes(env);
    var afterCwd := Le32(|env|) + afterEnvc;
    var afterArgv := StringBytes(cwd) + afterCwd;
    var afterArgc := StringsBytes(argv) + afterArgv;
    CursorU32Reads(|argv|, afterArgc);
    CursorStringsRead(argv, afterArgv);
    CursorStringReads(cwd, afterCwd);
    CursorU32Reads(|env|, afterEnvc);
    CursorStringsRead(env, []);
    assert StringsBytes(env) + [] == StringsBytes(env);
  }

  /** Within the cap the agent consumes exactly the spawn request; above it the lane ends. */
  lemma SpawnRead(argv: seq<Bytes>, cwd: Bytes, env: seq<Bytes>, rest: Bytes)
    requires Sendable(Spawn(argv, cwd, env))
    ensures ReadRequest(Encode(Spawn(argv, cwd, env)) + rest)
         == if |SpawnPayload(argv, cwd, env)| > MaxSpawnPayload then None
            else Some((SeenSpawn(if SpawnValid(argv, cwd, env) then Some(SpawnArgs(argv, cwd, env)) else None),
                       rest))
  {
    hide Le32, Load32, SpawnPayload, ParseSpawn, SpawnValid;
    var payload := SpawnPayload(argv, cwd, env);
    SpawnParses(argv, cwd, env);
    var after := payload + rest;
    Load32Le32(|payload|, []);
    assert Le32(|payload|) + [] == Le32(|payload|);
    TakeFront(payload, rest);
    TakeFront(Le32(|payload|), after);
    assert Encode(Spawn(argv, cwd, env)) + rest == [2] + (Le32(|payload|) + after);
    TakeFront([2], Le32(|payload|) + after);
  }

  /** A spawn over the cap: a working directory of 4 MiB. The host sends it, and the lane ends. */
  lemma LongDirectoryEndsLane(rest: Bytes)
    ensures var request := Spawn([], Zeros(MaxSpawnPayload), []);
            Sendable(request) && ReadRequest(Encode(request) + rest) == None
  {
    hide ReadRequest, Encode, Le32, Zeros;
    var cwd := Zeros(MaxSpawnPayload);
    assert |SpawnPayload([], cwd, [])| == 12 + |cwd|;
    SpawnRead([], cwd, [], rest);
  }

  lemma ReapRead(pid: u32, rest: Bytes)
    ensures ReadRequest(Encode(Reap(pid)) + rest) == Some((SeenReap(pid), rest))
  {
    hide Le32, Load32;
    Load32Le32(pid, []);
    assert Le32(pid) + [] == Le32(pid);
    TakeFront(Le32(pid), rest);
    assert Encode(Reap(pid)) + rest == [3] + (Le32(pid) + rest);
    TakeFront([3], Le32(pid) + rest);
  }

  // ---------------------------------------------------------------------------
  // What ends the lane, whatever is on it

  /**
   An argument ends the lane exactly if its kind is none of the four, or a blob is
   over 128 KiB, or the stream ends within an in-blob; and else it is what the
   kind says, with only an in-blob taken from the stream.
   */
  lemma ArgumentExactly(kind: byte, value: u64, input: Bytes)
    ensures var r := ReadArg(kind, value, input);
            && (r.None? <==> kind > 3 || (kind >= 1 && value > 131072) || (kind == 1 && |input| < value))
            && (r.Some? ==>
                  var (arg, rest) := r.value;
                  StandsFor(kind, value, arg) && (if arg.In? then arg.blob else []) + rest == input)
  {
    assert [] + input == input;
    if kind == 1 && value <= |input| {
      assert input[..value] + input[value..] == input;
    }
  }

  /** A request ends the lane exactly if its kind is none of the three, or what follows does. */
  lemma RequestKindExactly(input: Bytes)
    ensures input == [] || input[0] == 0 || input[0] > 3 ==> ReadRequest(input) == None
    ensures input != [] && input[0] == 1 ==> ReadRequest(input) == ReadSyscall(input[1..])
    ensures input != [] && input[0] == 2 ==> ReadRequest(input) == ReadSpawn(input[1..])
    ensures input != [] && input[0] == 3 ==>
              (ReadRequest(input).None? <==> |input| < 5)
              && (|input| >= 5 ==> ReadRequest(input) == Some((SeenReap(Load32(input[1..])), input[5..])))
  {
    hide ReadSyscall, ReadSpawn, Load32;
    if input != [] && input[0] == 3 && |input| >= 5 {
      LoadFront(input[1..5], input[5..]);
      assert input[1..5] + input[5..] == input[1..] && input[1..][..4] == input[1..5] && input[1..][4..] == input[5..];
    }
  }

  lemma LoadFront(b: Bytes, rest: Bytes)
    requires |b| >= 4
    ensures Load32(b + rest) == Load32(b)
  {
    assert forall i :: 0 <= i < 4 ==> (b + rest)[i] == b[i];
  }

  // ---------------------------------------------------------------------------
  // One exchange

  /** What a request looks like to an agent that reads it right. */
  function SeenAs(r: Request): Seen
    requires Sendable(r)
  {
    match r
    case Syscall(nr, args) => SeenSyscall(nr, Padded(args))
    case Spawn(argv, cwd, env) =>
      SeenSpawn(if SpawnValid(argv, cwd, env) then Some(SpawnArgs(argv, cwd, env)) else None)
    case Reap(pid) => SeenReap(pid)
  }

  /** Requests the agent does not end the lane for. */
  predicate WithinCaps(r: Request)
  {
    Sendable(r) && (r.Spawn? ==> |SpawnPayload(r.argv, r.cwd, r.env)| <= MaxSpawnPayload)
  }

  /** What the host should come to know of an outcome. */
  function AnswerOf(r: Request, o: Outcome): Answer
    requires Sendable(r) && Possible(SeenAs(r), o)
  {
    match o
    case Returned(ret, errno, outs) =>
      if ret == -1 then Threw(errno) else Result(ret, Truncated(Outs(Padded(r.args)), outs, ret))
    case SpawnFailed(errno) => Threw(if SpawnValid(r.argv, r.cwd, r.env) then errno else EINVAL)
    case Started(pid, stdin, stdout, stderr) => Spawned(pid, stdin, stdout, stderr)
    case NoChild(errno) => Threw(errno)
    case Exited(status) => Status(status)
  }

  lemma RequestRead(r: Request, rest: Bytes)
    requires Sendable(r)
    ensures ReadRequest(Encode(r) + rest) == if WithinCaps(r) then Some((SeenAs(r), rest)) else None
  {
    hide ReadRequest, Encode, SpawnPayload, SpawnValid, Padded;
    match r
    case Syscall(nr, args) => SyscallRead(nr, args, rest);
    case Spawn(argv, cwd, env) => SpawnRead(argv, cwd, env, rest);
    case Reap(pid) => ReapRead(pid, rest);
  }

  lemma SpawnedReadBack(pid: u32, stdin: u32, stdout: u32, stderr: u32, rest: Bytes)
    ensures var b := Le32(pid) + (Le32(stdin) + (Le32(stdout) + Le32(stderr)));
            && Take(b + rest, 16) == Some((b, rest))
            && Load32(b) == pid && Load32(b[4..]) == stdin && Load32(b[8..]) == stdout && Load32(b[12..]) == stderr
  {
    hide Le32, Load32;
    var d := Le32(stderr);
    var c := Le32(stdout) + d;
    var e := Le32(stdin) + c;
    var b := Le32(pid) + e;
    TakeFront(b, rest);
    Load32Le32(pid, e);
    Load32Le32(stdin, c);
    Load32Le32(stdout, d);
    Load32Le32(stderr, []);
    assert b[4..] == e && b[8..] == c && b[12..] == d && d + [] == d;
  }

  lemma ReplyRead(r: Request, o: Outcome, rest: Bytes)
    requires Sendable(r) && Possible(SeenAs(r), o)
    ensures ReadReply(r, Reply(SeenAs(r), o) + rest) == Some((AnswerOf(r, o), rest))
  {
    hide ReplyHead, Le32, Load32, Load64, Signed64, Padded, Outs, OutBytes, ReadOuts, Truncated, SpawnValid, Filled;
    match o
    case Returned(ret, errno, outs) =>
      PaddedBlobs(r.args);
      if ret == -1 {
        HeadReadBack(-1, errno, rest);
      } else {
        var after := OutBytes(Outs(r.args), outs, ret) + rest;
        OutsReadBack(Outs(r.args), outs, ret, rest);
        HeadReadBack(ret, 0, after);
        assert Reply(SeenAs(r), o) + rest == ReplyHead(ret, 0) + after;
      }
    case SpawnFailed(errno) => HeadReadBack(-1, if SpawnValid(r.argv, r.cwd, r.env) then errno else EINVAL, rest);
    case Started(pid, stdin, stdout, stderr) =>
      var b := Le32(pid) + (Le32(stdin) + (Le32(stdout) + Le32(stderr)));
      SpawnedReadBack(pid, stdin, stdout, stderr, rest);
      HeadReadBack(0, 0, b + rest);
      assert Reply(SeenAs(r), o) + rest == ReplyHead(0, 0) + (b + rest);
    case NoChild(errno) => HeadReadBack(-1, errno, rest);
    case Exited(status) =>
      Load32Le32(status, []);
      assert Le32(status) + [] == Le32(status);
      TakeFront(Le32(status), rest);
      HeadReadBack(0, 0, Le32(status) + rest);
      assert Reply(SeenAs(r), o) + rest == ReplyHead(0, 0) + (Le32(status) + rest);
  }

  // ---------------------------------------------------------------------------
  // Every sequence of exchanges

  datatype Exchange = Exchange(request: Request, outcome: Outcome)

  predicate Valid(x: Exchange)
  {
    WithinCaps(x.request) && Possible(SeenAs(x.request), x.outcome)
  }

  predicate AllValid(xs: seq<Exchange>)
  {
    forall i :: 0 <= i < |xs| ==> Valid(xs[i])
  }

  /** Everything the host writes. */
  function Written(xs: seq<Exchange>): Bytes
    requires AllValid(xs)
  {
    if xs == [] then [] else Encode(xs[0].request) + Written(xs[1..])
  }

  /**
   The agent on that stream, with the outcomes its requests turn out to have: all
   it writes, and what it leaves unread.
   */
  function AgentRun(input: Bytes, outcomes: seq<Outcome>): Option<(Bytes, Bytes)>
    decreases |outcomes|
  {
    if outcomes == [] then Some(([], input))
    else
      match ReadRequest(input)
      case None => None
      case Some((seen, rest)) =>
        if !Possible(seen, outcomes[0]) then None
        else
          match AgentRun(rest, outcomes[1..])
          case None => None
          case Some((replies, end)) => Some((Reply(seen, outcomes[0]) + replies, end))
  }

  /** The host on what the agent wrote. */
  function HostRun(requests: seq<Request>, input: Bytes): Option<(seq<Answer>, Bytes)>
    decreases |requests|
  {
    if requests == [] then Some(([], input))
    else
      match ReadReply(requests[0], input)
      case None => None
      case Some((answer, rest)) =>
        match HostRun(requests[1..], rest)
        case None => None
        case Some((answers, end)) => Some(([answer] + answers, end))
  }

  function Outcomes(xs: seq<Exchange>): seq<Outcome>
  {
    if xs == [] then [] else [xs[0].outcome] + Outcomes(xs[1..])
  }

  function Requests(xs: seq<Exchange>): seq<Request>
  {
    if xs == [] then [] else [xs[0].request] + Requests(xs[1..])
  }

  function Answers(xs: seq<Exchange>): seq<Answer>
    requires AllValid(xs)
  {
    if xs == [] then [] else [AnswerOf(xs[0].request, xs[0].outcome)] + Answers(xs[1..])
  }

  /**
   For every sequence of requests and every outcome they may have: the agent
   reads exactly the bytes the host wrote, the host reads exactly the bytes
   the agent wrote, and every answer is its outcome.
   */
  lemma {:induction false} LaneStaysAligned(xs: seq<Exchange>, more: Bytes, after: Bytes)
    requires AllValid(xs)
    ensures var agent := AgentRun(Written(xs) + more, Outcomes(xs));
            && agent.Some? && agent.value.1 == more
            && HostRun(Requests(xs), agent.value.0 + after) == Some((Answers(xs), after))
    decreases |xs|
  {
    hide ReadRequest, ReadReply, Encode, Reply, Possible, SeenAs, AnswerOf, Sendable, WithinCaps;
    if xs == [] {
      assert Written(xs) + more == more && [] + after == after;
    } else {
      var x, rest := xs[0], Written(xs[1..]) + more;
      ValidParts(x);
      RequestRead(x.request, rest);
      assert Written(xs) + more == Encode(x.request) + rest;
      LaneStaysAligned(xs[1..], more, after);
      assert Outcomes(xs)[1..] == Outcomes(xs[1..]) && Requests(xs)[1..] == Requests(xs[1..]);
      var agent := AgentRun(rest, Outcomes(xs[1..]));
      var reply := Reply(SeenAs(x.request), x.outcome);
      ReplyRead(x.request, x.outcome, agent.value.0 + after);
      assert reply + agent.value.0 + after == reply + (agent.value.0 + after);
    }
  }

  lemma ValidParts(x: Exchange)
    requires Valid(x)
    ensures WithinCaps(x.request) && Sendable(x.request) && Possible(SeenAs(x.request), x.outcome)
  {
  }
}
