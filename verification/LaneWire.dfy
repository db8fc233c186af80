/**
 The bytes on a lane between the host (packages/linux-guest/src/syscalls.ts)
 and the guest agent (distro/guest-agent/agent.c). Nothing on the wire says
 how long a message is: both ends must compute the same lengths.
 */
module LaneWire {
  import opened Wrappers
  import opened LittleEndian

  type i64 = x: int | -0x8000_0000_0000_0000 <= x < 0x8000_0000_0000_0000

  const MaxBlob: nat := 128 * 1024
  const MaxSpawnPayload: nat := 4 * 1024 * 1024
  const MaxString: nat := 4096
  const MaxArguments: nat := 256
  const MaxEnvironment: nat := 256
  const EINVAL: u32 := 22

  /** BigInt.asUintN(64, x), and the agent's conversion to uint64_t. */
  function Unsigned64(x: i64): u64
  {
    if x < 0 then x + 0x1_0000_0000_0000_0000 else x
  }

  function Signed64(x: u64): i64
  {
    if x >= 0x8000_0000_0000_0000 then x - 0x1_0000_0000_0000_0000 else x
  }

  lemma SignedUnsigned(x: i64)
    ensures Signed64(Unsigned64(x)) == x
  {
  }

  // ---------------------------------------------------------------------------
  // What the host sends

  datatype Arg = Scalar(value: u64) | In(blob: Bytes) | Out(capacity: nat, retSized: bool)

  datatype Request =
    | Syscall(nr: u32, args: seq<Arg>)
    | Spawn(argv: seq<Bytes>, cwd: Bytes, env: seq<Bytes>)
    | Reap(pid: u32)

  function KindOf(arg: Arg): byte
  {
    match arg
    case Scalar(_) => 0
    case In(_) => 1
    case Out(_, retSized) => if retSized then 3 else 2
  }

  predicate Fits(arg: Arg)
  {
    match arg
    case Scalar(_) => true
    case In(blob) => |blob| <= MaxBlob
    case Out(capacity, _) => capacity <= MaxBlob
  }

  function ValueOf(arg: Arg): u64
    requires Fits(arg)
  {
    match arg
    case Scalar(value) => value
    case In(blob) => |blob|
    case Out(capacity, _) => capacity
  }

  predicate AllFit(args: seq<Arg>)
  {
    forall i :: 0 <= i < |args| ==> Fits(args[i])
  }

  /** The header has room for six arguments; those not given are zero scalars. */
  function Padded(args: seq<Arg>): (r: seq<Arg>)
    requires |args| <= 6
    ensures |r| == 6
    decreases 6 - |args|
  {
    if |args| == 6 then args else Padded(args + [Scalar(0)])
  }

  function Kinds(args: seq<Arg>): (k: Bytes)
    ensures |k| == |args|
  {
    if args == [] then [] else [KindOf(args[0])] + Kinds(args[1..])
  }

  function Values(args: seq<Arg>): (v: Bytes)
    requires AllFit(args)
    ensures |v| == 8 * |args|
  {
    if args == [] then [] else Le64(ValueOf(args[0])) + Values(args[1..])
  }

  function Blobs(args: seq<Arg>): Bytes
  {
    if args == [] then []
    else (if args[0].In? then args[0].blob else []) + Blobs(args[1..])
  }

  function StringBytes(s: Bytes): Bytes
    requires |s| < 0x1_0000_0000
  {
    Le32(|s|) + s
  }

  predicate AllShort(strings: seq<Bytes>)
  {
    forall i :: 0 <= i < |strings| ==> |strings[i]| < 0x1_0000_0000
  }

  function StringsBytes(strings: seq<Bytes>): Bytes
    requires AllShort(strings)
  {
    if strings == [] then [] else StringBytes(strings[0]) + StringsBytes(strings[1..])
  }

  /** Lengths that a u32 can hold: anything a program can build. */
  predicate Encodable(argv: seq<Bytes>, cwd: Bytes, env: seq<Bytes>)
  {
    && |argv| < 0x1_0000_0000 && AllShort(argv) && |cwd| < 0x1_0000_0000
    && |env| < 0x1_0000_0000 && AllShort(env)
  }

  function SpawnPayload(argv: seq<Bytes>, cwd: Bytes, env: seq<Bytes>): Bytes
    requires Encodable(argv, cwd, env)
  {
    Le32(|argv|) + (StringsBytes(argv) + (StringBytes(cwd) + (Le32(|env|) + StringsBytes(env))))
  }

  /** What the host can put on the wire. */
  predicate Sendable(r: Request)
  {
    match r
    case Syscall(_, args) => |args| <= 6 && AllFit(args)
    case Spawn(argv, cwd, env) => Encodable(argv, cwd, env) && |SpawnPayload(argv, cwd, env)| < 0x1_0000_0000
    case Reap(_) => true
  }

  lemma {:induction false} PaddedFits(args: seq<Arg>)
    requires |args| <= 6 && AllFit(args)
    ensures AllFit(Padded(args))
    decreases 6 - |args|
  {
    if |args| < 6 { PaddedFits(args + [Scalar(0)]); }
  }

  function Encode(r: Request): Bytes
    requires Sendable(r)
  {
    match r
    case Syscall(nr, args) =>
      PaddedFits(args);
      [1] + (Le32(nr) + (Kinds(Padded(args)) + (Values(Padded(args)) + Blobs(args))))
    case Spawn(argv, cwd, env) => [2] + (Le32(|SpawnPayload(argv, cwd, env)|) + SpawnPayload(argv, cwd, env))
    case Reap(pid) => [3] + Le32(pid)
  }

  // ---------------------------------------------------------------------------
  // What the agent reads

  datatype SpawnArgs = SpawnArgs(argv: seq<Bytes>, cwd: Bytes, env: seq<Bytes>)

  /** A request as the agent understands it; a spawn payload may fail to parse. */
  datatype Seen =
    | SeenSyscall(nr: u32, args: seq<Arg>)
    | SeenSpawn(spawn: Option<SpawnArgs>)
    | SeenReap(pid: u32)

  /** A read of n bytes; None when the connection ends first. */
  function Take(input: Bytes, n: nat): Option<(Bytes, Bytes)>
  {
    if |input| < n then None else Some((input[..n], input[n..]))
  }

  /** One argument: an in-blob's bytes follow on the stream. None ends the lane. */
  function ReadArg(kind: byte, value: u64, input: Bytes): Option<(Arg, Bytes)>
  {
    if kind == 0 then Some((Scalar(value), input))
    else if kind == 1 then
      if value > MaxBlob then None
      else
        match Take(input, value)
        case None => None
        case Some((blob, rest)) => Some((In(blob), rest))
    else if kind == 2 || kind == 3 then
      if value > MaxBlob then None else Some((Out(value, kind == 3), input))
    else None
  }

  function ReadArgs(kinds: Bytes, values: Bytes, input: Bytes): Option<(seq<Arg>, Bytes)>
    requires |values| == 8 * |kinds|
    decreases |kinds|
  {
    if kinds == [] then Some(([], input))
    else
      match ReadArg(kinds[0], Load64(values), input)
      case None => None
      case Some((arg, rest)) =>
        match ReadArgs(kinds[1..], values[8..], rest)
        case None => None
        case Some((args, end)) => Some(([arg] + args, end))
  }

  function ReadSyscall(input: Bytes): Option<(Seen, Bytes)>
  {
    match Take(input, 58)
    case None => None
    case Some((header, rest)) =>
      match ReadArgs(header[4..10], header[10..], rest)
      case None => None
      case Some((args, end)) => Some((SeenSyscall(Load32(header), args), end))
  }

  /** cursor_u32. */
  function CursorU32(b: Bytes): Option<(u32, Bytes)>
  {
    if |b| < 4 then None else Some((Load32(b), b[4..]))
  }

  /** cursor_string. */
  function CursorString(b: Bytes): Option<(Bytes, Bytes)>
  {
    match CursorU32(b)
    case None => None
    case Some((length, rest)) =>
      if length > MaxString || length > |rest| || 0 in rest[..length] then None
      else Some((rest[..length], rest[length..]))
  }

  function CursorStrings(b: Bytes, n: nat): Option<(seq<Bytes>, Bytes)>
    decreases n
  {
    if n == 0 then Some(([], b))
    else
      match CursorString(b)
      case None => None
      case Some((s, rest)) =>
        match CursorStrings(rest, n - 1)
        case None => None
        case Some((strings, end)) => Some(([s] + strings, end))
  }

  const Equals: byte := 61

  predicate AllHaveEquals(env: seq<Bytes>)
  {
    forall i :: 0 <= i < |env| ==> Equals in env[i]
  }

  /** The spawn payload, or None where the agent answers EINVAL. */
  function ParseSpawn(payload: Bytes): Option<SpawnArgs>
  {
    match CursorU32(payload)
    case None => None
    case Some((argc, afterArgc)) =>
      if argc < 1 || argc > MaxArguments then None
      else
        match CursorStrings(afterArgc, argc)
        case None => None
        case Some((argv, afterArgv)) =>
          match CursorString(afterArgv)
          case None => None
          case Some((cwd, afterCwd)) =>
            match CursorU32(afterCwd)
            case None => None
            case Some((envc, afterEnvc)) =>
              if envc > MaxEnvironment then None
              else
                match CursorStrings(afterEnvc, envc)
                case None => None
                case Some((env, end)) =>
                  if !AllHaveEquals(env) || end != [] then None else Some(SpawnArgs(argv, cwd, env))
  }

  function ReadSpawn(input: Bytes): Option<(Seen, Bytes)>
  {
    match Take(input, 4)
    case None => None
    case Some((length, rest)) =>
      if Load32(length) > MaxSpawnPayload then None
      else
        match Take(rest, Load32(length))
        case None => None
        case Some((payload, end)) => Some((SeenSpawn(ParseSpawn(payload)), end))
  }

  function ReadReap(input: Bytes): Option<(Seen, Bytes)>
  {
    match Take(input, 4)
    case None => None
    case Some((pid, end)) => Some((SeenReap(Load32(pid)), end))
  }

  /** One turn of serve_lane's loop: the request read and what is left, or None when the lane ends. */
  function ReadRequest(input: Bytes): Option<(Seen, Bytes)>
  {
    match Take(input, 1)
    case None => None
    case Some((kind, rest)) =>
      if kind[0] == 1 then ReadSyscall(rest)
      else if kind[0] == 2 then ReadSpawn(rest)
      else if kind[0] == 3 then ReadReap(rest)
      else None
  }

  // ---------------------------------------------------------------------------
  // What the agent answers

  /** What the guest's kernel and process table make of a request. */
  datatype Outcome =
    | Returned(ret: i64, errno: u32, outs: seq<Bytes>)     // one buffer for every out argument, at its capacity
    | SpawnFailed(errno: u32)
    | Started(pid: u32, stdin: u32, stdout: u32, stderr: u32)
    | NoChild(errno: u32)
    | Exited(status: u32)

  function Outs(args: seq<Arg>): seq<Arg>
  {
    if args == [] then [] else (if args[0].Out? then [args[0]] else []) + Outs(args[1..])
  }

  predicate Filled(outs: seq<Arg>, buffers: seq<Bytes>)
  {
    |outs| == |buffers| && forall i :: 0 <= i < |outs| ==> outs[i].Out? && |buffers[i]| == outs[i].capacity
  }

  /** Outcomes that a request can have. */
  predicate Possible(seen: Seen, o: Outcome)
  {
    match seen
    case SeenSyscall(_, args) => o.Returned? && Filled(Outs(args), o.outs)
    case SeenSpawn(spawn) => o.SpawnFailed? || (spawn.Some? && o.Started?)
    case SeenReap(_) => o.NoChild? || o.Exited?
  }

  /** How much of an out buffer is sent back. */
  function TakenFrom(arg: Arg, ret: i64): nat
    requires arg.Out?
  {
    if !arg.retSized then arg.capacity
    else if ret < 0 then 0
    else if ret < arg.capacity then ret else arg.capacity
  }

  function OutBytes(outs: seq<Arg>, buffers: seq<Bytes>, ret: i64): Bytes
    requires Filled(outs, buffers)
  {
    if outs == [] then []
    else buffers[0][..TakenFrom(outs[0], ret)] + OutBytes(outs[1..], buffers[1..], ret)
  }

  /** write_reply. */
  function ReplyHead(ret: i64, errno: u32): (b: Bytes)
    ensures |b| == 12
  {
    Le64(Unsigned64(ret)) + Le32(errno)
  }

  /** Everything the agent writes for one request. */
  function Reply(seen: Seen, o: Outcome): Bytes
    requires Possible(seen, o)
  {
    match o
    case Returned(ret, errno, outs) =>
      if ret == -1 then ReplyHead(-1, errno) else ReplyHead(ret, 0) + OutBytes(Outs(seen.args), outs, ret)
    case SpawnFailed(errno) => ReplyHead(-1, if seen.spawn.None? then EINVAL else errno)
    case Started(pid, stdin, stdout, stderr) =>
      ReplyHead(0, 0) + (Le32(pid) + (Le32(stdin) + (Le32(stdout) + Le32(stderr))))
    case NoChild(errno) => ReplyHead(-1, errno)
    case Exited(status) => ReplyHead(0, 0) + Le32(status)
  }

  // ---------------------------------------------------------------------------
  // What the host reads

  datatype Answer =
    | Threw(errno: u32)                                    // a SystemError
    | Result(ret: i64, outs: seq<Bytes>)
    | Spawned(pid: u32, stdin: u32, stdout: u32, stderr: u32)
    | Status(status: u32)

  function ReadOuts(outs: seq<Arg>, ret: i64, input: Bytes): Option<(seq<Bytes>, Bytes)>
    requires forall i :: 0 <= i < |outs| ==> outs[i].Out?
    decreases |outs|
  {
    if outs == [] then Some(([], input))
    else
      match Take(input, TakenFrom(outs[0], ret))
      case None => None
      case Some((b, rest)) =>
        match ReadOuts(outs[1..], ret, rest)
        case None => None
        case Some((more, end)) => Some(([b] + more, end))
  }

  lemma {:induction false} OutsAreOuts(args: seq<Arg>)
    ensures forall i :: 0 <= i < |Outs(args)| ==> Outs(args)[i].Out?
  {
    if args != [] { OutsAreOuts(args[1..]); }
  }

  /** The host's reading of the reply to a request it sent. */
  function ReadReply(r: Request, input: Bytes): Option<(Answer, Bytes)>
  {
    match Take(input, 12)
    case None => None
    case Some((head, rest)) =>
      var ret, errno := Signed64(Load64(head)), Load32(head[8..]);
      if ret == -1 then Some((Threw(errno), rest))
      else
        match r
        case Syscall(_, args) =>
          OutsAreOuts(args);
          (match ReadOuts(Outs(args), ret, rest)
           case None => None
           case Some((outs, end)) => Some((Result(ret, outs), end)))
        case Spawn(_, _, _) =>
          (match Take(rest, 16)
           case None => None
           case Some((b, end)) => Some((Spawned(Load32(b), Load32(b[4..]), Load32(b[8..]), Load32(b[12..])), end)))
        case Reap(_) =>
          (match Take(rest, 4)
           case None => None
           case Some((b, end)) => Some((Status(Load32(b)), end)))
  }
}
