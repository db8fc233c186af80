/**
 The two programs at the ends of a lane: the agent's reads, cursor and writes
 (distro/guest-agent/agent.c) and the host's request building and reply
 reading (packages/linux-guest/src/syscalls.ts), each proved to be the
 functions of module LaneWire.
 */
module LaneEnds {
  import opened Wrappers
  import opened LittleEndian
  import opened LaneWire

  /** A connected socket: what has arrived and not been read, and what has been written. */
  class Socket {
    var unread: Bytes
    var written: Bytes

    constructor (unread: Bytes)
      ensures this.unread == unread && written == []
    {
      this.unread := unread;
      written := [];
    }

    /** read_all: short reads are repeated until the length is there, or the connection ends. */
    method ReadAll(length: nat) returns (r: Option<Bytes>)
      modifies this`unread
      ensures match Take(old(unread), length)
              case None => r == None
              case Some((b, rest)) => r == Some(b) && unread == rest
    {
      var got: Bytes := [];
      while |got| < length
        invariant |got| <= length && got + unread == old(unread)
      {
        if unread == [] {
          return None;
        }
        var n: nat :| 0 < n <= length - |got| && n <= |unread|;
        got := got + unread[..n];
        unread := unread[n..];
      }
      assert old(unread)[..length] == got && old(unread)[length..] == unread;
      return Some(got);
    }

    /** write_all: short writes are repeated until everything is out. */
    method WriteAll(b: Bytes)
      modifies this`written
      ensures written == old(written) + b
    {
      var i := 0;
      while i < |b|
        invariant 0 <= i <= |b| && written == old(written) + b[..i]
      {
        var n: nat :| 0 < n <= |b| - i;
        written := written + b[i..i + n];
        i := i + n;
        assert b[..i] == b[..i - n] + b[i - n..i];
      }
      assert b[..|b|] == b;
    }
  }

  // ---------------------------------------------------------------------------
  // The agent

  /** The cursor over a spawn payload. */
  class Cursor {
    const data: Bytes
    var offset: nat

    ghost predicate Valid()
      reads this
    {
      offset <= |data|
    }

    function Rest(): Bytes
      requires Valid()
      reads this
    {
      data[offset..]
    }

    constructor (data: Bytes)
      ensures this.data == data && Valid() && Rest() == data
    {
      this.data := data;
      offset := 0;
    }

    /** cursor_u32. */
    method U32() returns (r: Option<u32>)
      requires Valid()
      modifies this`offset
      ensures Valid()
      ensures match CursorU32(old(Rest()))
              case None => r == None
              case Some((x, rest)) => r == Some(x) && Rest() == rest
    {
      hide Load32;
      if |data| - offset < 4 {
        return None;
      }
      var x := Load32(data[offset..]);
      offset := offset + 4;
      return Some(x);
    }

    /** cursor_string. */
    method String() returns (r: Option<Bytes>)
      requires Valid()
      modifies this`offset
      ensures Valid()
      ensures match CursorString(old(Rest()))
              case None => r == None
              case Some((s, rest)) => r == Some(s) && Rest() == rest
    {
      hide CursorU32;
      var length := U32();
      if length.None? || length.value > MaxString || length.value > |data| - offset {
        return None;
      }
      var s := data[offset..offset + length.value];
      assert s == Rest()[..length.value];
      if 0 in s {
        return None;
      }
      offset := offset + length.value;
      return Some(s);
    }

    method Strings(n: nat) returns (r: Option<seq<Bytes>>)
      requires Valid()
      modifies this`offset
      ensures Valid()
      ensures match CursorStrings(old(Rest()), n)
              case None => r == None
              case Some((strings, rest)) => r == Some(strings) && Rest() == rest
    {
      hide CursorString, Prepend;
      var strings: seq<Bytes> := [];
      Prepends([], [], CursorStrings(Rest(), n), []);
      for i := 0 to n
        invariant Valid() && |strings| == i
        invariant CursorStrings(old(Rest()), n) == Prepend(strings, CursorStrings(Rest(), n - i))
      {
        ghost var before := Rest();
        var s := String();
        NextString(before, n - i);
        if s.None? {
          PrependNone(strings);
          return None;
        }
        Prepends(strings, s.value, CursorStrings(Rest(), n - i - 1), []);
        strings := strings + [s.value];
      }
      Prepends(strings, [], None, Rest());
      return Some(strings);
    }
  }

  /** What a loop has read so far, in front of what it has yet to read. */
  function Prepend<T>(first: seq<T>, r: Option<(seq<T>, Bytes)>): Option<(seq<T>, Bytes)>
  {
    match r
    case None => None
    case Some((more, end)) => Some((first + more, end))
  }

  lemma PrependNone<T>(first: seq<T>)
    ensures Prepend(first, None) == None
  {
  }

  lemma NextString(b: Bytes, n: nat)
    requires n > 0
    ensures CursorStrings(b, n) == match CursorString(b)
                                   case None => None
                                   case Some((s, rest)) => Prepend([s], CursorStrings(rest, n - 1))
  {
    hide CursorString;
  }

  lemma NextArg(kinds: Bytes, values: Bytes, input: Bytes)
    requires |values| == 8 * |kinds| && kinds != []
    ensures ReadArgs(kinds, values, input)
         == match ReadArg(kinds[0], Load64(values), input)
            case None => None
            case Some((arg, rest)) => Prepend([arg], ReadArgs(kinds[1..], values[8..], rest))
  {
    hide ReadArg, Load64;
  }

  lemma Prepends<T>(first: seq<T>, x: T, r: Option<(seq<T>, Bytes)>, rest: Bytes)
    ensures Prepend([], r) == r
    ensures Prepend(first + [x], r) == Prepend(first, Prepend([x], r))
    ensures Prepend<T>(first, Some(([], rest))) == Some((first, rest))
  {
    if r.Some? {
      assert [] + r.value.0 == r.value.0;
      assert first + [x] + r.value.0 == first + ([x] + r.value.0);
    }
    assert first + [] == first;
  }

  method Assignments(env: seq<Bytes>) returns (r: bool)
    ensures r <==> AllHaveEquals(env)
  {
    for i := 0 to |env|
      invariant forall j :: 0 <= j < i ==> Equals in env[j]
    {
      if Equals !in env[i] {
        return false;
      }
    }
    return true;
  }

  /** The parsing half of serve_spawn. */
  method ParsePayload(payload: Bytes) returns (r: Option<SpawnArgs>)
    ensures r == ParseSpawn(payload)
  {
    hide CursorU32, CursorString, CursorStrings, AllHaveEquals;
    var cursor := new Cursor(payload);
    var argc := cursor.U32();
    if argc.None? || argc.value < 1 || argc.value > MaxArguments {
      return None;
    }
    var argv := cursor.Strings(argc.value);
    if argv.None? {
      return None;
    }
    var cwd := cursor.String();
    if cwd.None? {
      return None;
    }
    var envc := cursor.U32();
    if envc.None? || envc.value > MaxEnvironment {
      return None;
    }
    var env := cursor.Strings(envc.value);
    if env.None? {
      return None;
    }
    var assignments := Assignments(env.value);
    if !assignments || cursor.offset != |payload| {
      return None;
    }
    return Some(SpawnArgs(argv.value, cwd.value, env.value));
  }

  /** One case of serve_syscall's switch. */
  method ReceiveArg(socket: Socket, kind: byte, value: u64) returns (r: Option<Arg>)
    modifies socket`unread
    ensures match ReadArg(kind, value, old(socket.unread))
            case None => r == None
            case Some((arg, rest)) => r == Some(arg) && socket.unread == rest
  {
    hide Take;
    if kind == 0 {
      return Some(Scalar(value));
    } else if kind == 1 {
      if value > MaxBlob {
        return None;
      }
      var blob := socket.ReadAll(value);
      if blob.None? {
        return None;
      }
      return Some(In(blob.value));
    } else if kind == 2 || kind == 3 {
      if value > MaxBlob {
        return None;
      }
      return Some(Out(value, kind == 3));
    }
    return None;
  }

  /** The arguments of a syscall request, reading in-blobs as they come. None ends the lane. */
  method ReceiveArgs(socket: Socket, kinds: Bytes, values: Bytes) returns (r: Option<seq<Arg>>)
    requires |kinds| == 6 && |values| == 48
    modifies socket`unread
    ensures match ReadArgs(kinds, values, old(socket.unread))
            case None => r == None
            case Some((args, rest)) => r == Some(args) && socket.unread == rest
  {
    hide Load64, Take, Prepend, ReadArgs;
    var args: seq<Arg> := [];
    assert kinds[0..] == kinds && values[0..] == values;
    Prepends([], Scalar(0), ReadArgs(kinds, values, socket.unread), []);
    for i := 0 to 6
      invariant |args| == i
      invariant ReadArgs(kinds, values, old(socket.unread))
             == Prepend(args, ReadArgs(kinds[i..], values[8 * i..], socket.unread))
    {
      var value := Load64(values[8 * i..]);
      NextArg(kinds[i..], values[8 * i..], socket.unread);
      assert kinds[i..][0] == kinds[i] && kinds[i..][1..] == kinds[i + 1..];
      assert values[8 * i..][8..] == values[8 * (i + 1)..];
      PrependNone(args);
      var arg := ReceiveArg(socket, kinds[i], value);
      if arg.None? {
        return None;
      }
      Prepends(args, arg.value, ReadArgs(kinds[i + 1..], values[8 * (i + 1)..], socket.unread), []);
      args := args + [arg.value];
    }
    NoMoreArgs(kinds[6..], values[48..], socket.unread);
    Prepends(args, Scalar(0), None, socket.unread);
    return Some(args);
  }

  lemma NoMoreArgs(kinds: Bytes, values: Bytes, input: Bytes)
    requires kinds == [] && values == []
    ensures ReadArgs(kinds, values, input) == Some(([], input))
  {
  }

  /** One turn of serve_lane's loop, up to where the request is known. None ends the lane. */
  method Receive(socket: Socket) returns (r: Option<Seen>)
    modifies socket`unread
    ensures match ReadRequest(old(socket.unread))
            case None => r == None
            case Some((seen, rest)) => r == Some(seen) && socket.unread == rest
  {
    hide Take, ReadArgs, Load32, Load64, ParseSpawn;
    TakeLength();
    var kind := socket.ReadAll(1);
    if kind.None? {
      return None;
    }
    if kind.value[0] == 1 {
      var header := socket.ReadAll(58);
      if header.None? {
        return None;
      }
      var args := ReceiveArgs(socket, header.value[4..10], header.value[10..]);
      if args.None? {
        return None;
      }
      return Some(SeenSyscall(Load32(header.value), args.value));
    } else if kind.value[0] == 2 {
      var length := socket.ReadAll(4);
      if length.None? || Load32(length.value) > MaxSpawnPayload {
        return None;
      }
      var payload := socket.ReadAll(Load32(length.value));
      if payload.None? {
        return None;
      }
      var spawn := ParsePayload(payload.value);
      return Some(SeenSpawn(spawn));
    } else if kind.value[0] == 3 {
      var pid := socket.ReadAll(4);
      if pid.None? {
        return None;
      }
      return Some(SeenReap(Load32(pid.value)));
    }
    return None;
  }

  lemma TakeLength()
    ensures forall input: Bytes, n: nat :: Take(input, n).Some? ==> |Take(input, n).value.0| == n
  {
  }

  /** The end of serve_syscall: the reply head, then of each out buffer what the kernel filled. */
  method AnswerSyscall(socket: Socket, seen: Seen, ret: i64, errno: u32, buffers: seq<Bytes>)
    requires seen.SeenSyscall? && Possible(seen, Returned(ret, errno, buffers))
    modifies socket`written
    ensures socket.written == old(socket.written) + Reply(seen, Returned(ret, errno, buffers))
  {
    hide ReplyHead, OutBytes, Outs, TakenFrom, Filled;
    ghost var start := socket.written;
    var error := if ret == -1 then errno else 0;
    socket.WriteAll(ReplyHead(ret, error));
    if ret != -1 {
      ghost var outs := Outs(seen.args);
      ghost var head := socket.written;
      var j := 0;
      BuffersFilled(outs, buffers);
      assert seen.args[0..] == seen.args && outs[0..] == outs && buffers[0..] == buffers;
      for i := 0 to |seen.args|
        invariant 0 <= j <= |buffers| && Outs(seen.args[i..]) == outs[j..]
        invariant socket.written + OutBytes(outs[j..], buffers[j..], ret) == head + OutBytes(outs, buffers, ret)
      {
        NextOut(seen.args, i, outs, buffers, j, ret);
        if seen.args[i].Out? {
          var take: nat := 0;
          if !seen.args[i].retSized {
            take := seen.args[i].capacity;
          } else if ret >= 0 {
            take := if ret < seen.args[i].capacity then ret else seen.args[i].capacity;
          }
          TakenIs(seen.args[i], ret);
          ghost var before := socket.written;
          if take > 0 {
            socket.WriteAll(buffers[j][..take]);
          }
          assert socket.written == before + buffers[j][..take];
          j := j + 1;
        }
      }
      NoOutsLeft(seen.args, outs, buffers, j, ret);
      assert socket.written == head + OutBytes(outs, buffers, ret);
      assert head + OutBytes(outs, buffers, ret) == start + (ReplyHead(ret, 0) + OutBytes(outs, buffers, ret));
    }
  }

  lemma BuffersFilled(outs: seq<Arg>, buffers: seq<Bytes>)
    requires Filled(outs, buffers)
    ensures |outs| == |buffers|
    ensures forall j :: 0 <= j <= |outs| ==> Filled(outs[j..], buffers[j..])
  {
  }

  lemma TakenIs(arg: Arg, ret: i64)
    requires arg.Out?
    ensures TakenFrom(arg, ret)
         == if !arg.retSized then arg.capacity
            else if ret >= 0 then (if ret < arg.capacity then ret else arg.capacity) else 0
  {
  }

  lemma NoOutsLeft(args: seq<Arg>, outs: seq<Arg>, buffers: seq<Bytes>, j: nat, ret: i64)
    requires Filled(outs, buffers) && j <= |outs| && Outs(args[|args|..]) == outs[j..]
    ensures j == |outs| && Filled(outs[j..], buffers[j..]) && OutBytes(outs[j..], buffers[j..], ret) == []
  {
  }

  lemma NextOut(args: seq<Arg>, i: nat, outs: seq<Arg>, buffers: seq<Bytes>, j: nat, ret: i64)
    requires Filled(outs, buffers) && i < |args| && j <= |outs| && Outs(args[i..]) == outs[j..]
    ensures !args[i].Out? ==> Outs(args[i + 1..]) == outs[j..]
    ensures args[i].Out? ==>
              && j < |outs| && outs[j] == args[i] && outs[j + 1..] == Outs(args[i + 1..])
              && TakenFrom(outs[j], ret) <= |buffers[j]|
              && Filled(outs[j..], buffers[j..]) && Filled(outs[j + 1..], buffers[j + 1..])
              && OutBytes(outs[j..], buffers[j..], ret)
                 == buffers[j][..TakenFrom(outs[j], ret)] + OutBytes(outs[j + 1..], buffers[j + 1..], ret)
  {
    assert args[i..][0] == args[i] && args[i..][1..] == args[i + 1..];
    if args[i].Out? {
      assert outs[j..] == [args[i]] + Outs(args[i + 1..]);
      assert outs[j..][0] == outs[j] && outs[j..][1..] == outs[j + 1..];
      assert buffers[j..][0] == buffers[j] && buffers[j..][1..] == buffers[j + 1..];
    }
  }

  // ---------------------------------------------------------------------------
  // The host

  function Le64s(values: seq<u64>): Bytes
  {
    if values == [] then [] else Le64(values[0]) + Le64s(values[1..])
  }

  lemma {:induction false} HeaderIs(args: seq<Arg>, kinds: Bytes, values: seq<u64>)
    requires AllFit(args) && |kinds| == |values| == |args|
    requires forall i :: 0 <= i < |args| ==> kinds[i] == KindOf(args[i]) && values[i] == ValueOf(args[i])
    ensures Kinds(args) == kinds && Values(args) == Le64s(values)
  {
    hide Le64;
    if args != [] {
      HeaderIs(args[1..], kinds[1..], values[1..]);
      assert kinds == [kinds[0]] + kinds[1..];
    }
  }

  lemma {:induction false} PaddedIs(args: seq<Arg>)
    requires |args| <= 6
    ensures forall i :: 0 <= i < 6 ==> Padded(args)[i] == if i < |args| then args[i] else Scalar(0)
    decreases 6 - |args|
  {
    if |args| < 6 { PaddedIs(args + [Scalar(0)]); }
  }

  lemma {:induction false} BlobsGrow(args: seq<Arg>, i: nat)
    requires i < |args|
    ensures Blobs(args[..i + 1]) == Blobs(args[..i]) + if args[i].In? then args[i].blob else []
  {
    if i == 0 {
      assert args[..1] == [args[0]] && args[..1][1..] == [];
    } else {
      BlobsGrow(args[1..], i - 1);
      assert args[..i + 1][1..] == args[1..][..i] && args[..i][1..] == args[1..][..i - 1];
    }
  }

  /**
   The first half of syscall: header fields filled in by position while the blobs
   are appended. None is a RangeError.
   */
  method SyscallRequest(nr: u32, args: seq<Arg>) returns (r: Option<Bytes>)
    requires |args| <= 6
    ensures r == if AllFit(args) then Some(Encode(Syscall(nr, args))) else None
  {
    hide Le64, Le32, Kinds, Values, Blobs, Padded;
    var kinds: Bytes := [0, 0, 0, 0, 0, 0];
    var values: seq<u64> := [0, 0, 0, 0, 0, 0];
    var blobs: Bytes := [];
    NoBlobs();
    assert args[..0] == [];
    for i := 0 to |args|
      invariant |kinds| == 6 && |values| == 6 && AllFit(args[..i]) && blobs == Blobs(args[..i])
      invariant forall j :: 0 <= j < 6 ==> kinds[j] == (if j < i then KindOf(args[j]) else 0)
      invariant forall j :: 0 <= j < 6 ==> values[j] == if j < i && Fits(args[j]) then ValueOf(args[j]) else 0
    {
      BlobsGrow(args, i);
      match args[i]
      case Scalar(value) =>
        kinds, values := kinds[i := 0], values[i := value];
      case In(blob) =>
        if |blob| > MaxBlob {
          return None;
        }
        kinds, values := kinds[i := 1], values[i := |blob|];
        blobs := blobs + blob;
      case Out(capacity, retSized) =>
        if capacity > MaxBlob {
          return None;
        }
        kinds, values := kinds[i := if retSized then 3 else 2], values[i := capacity];
    }
    assert args[..|args|] == args;
    PaddedFits(args);
    PaddedIs(args);
    HeaderIs(Padded(args), kinds, values);
    return Some([1] + (Le32(nr) + (kinds + (Le64s(values) + blobs))));
  }

  lemma NoBlobs()
    ensures Blobs([]) == []
  {
  }

  /** The second half: the reply head and then, out argument by out argument, as many bytes as its result says. */
  method ReceiveOuts(socket: Socket, outs: seq<Arg>, ret: i64) returns (r: Option<seq<Bytes>>)
    requires forall i :: 0 <= i < |outs| ==> outs[i].Out?
    modifies socket`unread
    ensures match ReadOuts(outs, ret, old(socket.unread))
            case None => r == None
            case Some((buffers, rest)) => r == Some(buffers) && socket.unread == rest
  {
    hide Take, Prepend, ReadOuts, TakenFrom;
    var buffers: seq<Bytes> := [];
    assert outs[0..] == outs;
    Prepends([], [], ReadOuts(outs, ret, socket.unread), []);
    for i := 0 to |outs|
      invariant ReadOuts(outs, ret, old(socket.unread)) == Prepend(buffers, ReadOuts(outs[i..], ret, socket.unread))
    {
      var out := outs[i];
      var length: nat :=
        if out.retSized then (if ret < 0 then 0 else if ret < out.capacity then ret else out.capacity)
        else out.capacity;
      TakenIs(out, ret);
      NextBuffer(outs[i..], ret, socket.unread);
      assert outs[i..][0] == out && outs[i..][1..] == outs[i + 1..];
      PrependNone(buffers);
      var b := socket.ReadAll(length);
      if b.None? {
        return None;
      }
      Prepends(buffers, b.value, ReadOuts(outs[i + 1..], ret, socket.unread), []);
      buffers := buffers + [b.value];
    }
    NoMoreBuffers(outs[|outs|..], ret, socket.unread);
    Prepends(buffers, [], None, socket.unread);
    return Some(buffers);
  }

  lemma NextBuffer(outs: seq<Arg>, ret: i64, input: Bytes)
    requires outs != [] && forall i :: 0 <= i < |outs| ==> outs[i].Out?
    ensures ReadOuts(outs, ret, input) == match Take(input, TakenFrom(outs[0], ret))
                                          case None => None
                                          case Some((b, rest)) => Prepend([b], ReadOuts(outs[1..], ret, rest))
  {
    hide Take, TakenFrom;
  }

  lemma NoMoreBuffers(outs: seq<Arg>, ret: i64, input: Bytes)
    requires outs == []
    ensures ReadOuts(outs, ret, input) == Some(([], input))
  {
  }

  /** The host's reading of a reply, for each of the three requests. None is a broken connection. */
  method ReceiveReply(socket: Socket, r: Request) returns (answer: Option<Answer>)
    modifies socket`unread
    ensures match ReadReply(r, old(socket.unread))
            case None => answer == None
            case Some((a, rest)) => answer == Some(a) && socket.unread == rest
  {
    hide Take, Load32, Load64, Signed64, ReadOuts, Outs;
    TakeLength();
    var head := socket.ReadAll(12);
    if head.None? {
      return None;
    }
    var ret := Signed64(Load64(head.value));
    if ret == -1 {
      return Some(Threw(Load32(head.value[8..])));
    }
    match r
    case Syscall(_, args) =>
      OutsAreOuts(args);
      var buffers := ReceiveOuts(socket, Outs(args), ret);
      if buffers.None? {
        return None;
      }
      return Some(Result(ret, buffers.value));
    case Spawn(_, _, _) =>
      var b := socket.ReadAll(16);
      if b.None? {
        return None;
      }
      return Some(Spawned(Load32(b.value), Load32(b.value[4..]), Load32(b.value[8..]), Load32(b.value[12..])));
    case Reap(_) =>
      var b := socket.ReadAll(4);
      if b.None? {
        return None;
      }
      return Some(Status(Load32(b.value)));
  }
}
