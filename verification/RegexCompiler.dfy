/**
 The compiler as it runs: a growing byte array that code is appended to and shifted in,
 and the cursors into it.  Each method is proved to do what the specification of
 `RegexCompile` says about the state before it.
 */
module RegexCompiler {
  import opened Bytes
  import opened Closure
  import opened RegexSyntax
  import opened RegexCompile
  import N = RegexNode

  const INIT_BUF_SIZE: nat := 32

  /** A step that returns the new pattern position, and the state it leaves, against the specification. */
  ghost predicate Follows(r: Result<nat>, st: CState, spec: Result<Place>) {
    match spec
    case Ok(place) => r == Result.Ok(place.p) && st == place.st
    case Err(e) => r == Result.Err(e)
  }

  lemma OpSize(op: Byte, arg: int)
    ensures |N.Op1(op, arg)| == 3
  {
  }

  /** Three bytes at `loc` make up a jump instruction. */
  lemma ThreeBytes(b: seq<Byte>, loc: nat, op: Byte, arg: int)
    requires loc + 3 <= |b| && b[loc] == op && b[loc + 1] == arg % 256 && b[loc + 2] == (arg / 256) % 256
    ensures b[loc..loc + 3] == N.Op1(op, arg)
  {
  }

  /** A buffer with a jump instruction at `loc` and everything behind it moved up by three. */
  lemma Shifted(was: seq<Byte>, now: seq<Byte>, loc: nat, op: Byte, arg: int)
    requires |now| == |was| + 3 && loc <= |was|
    requires forall k | 0 <= k < loc :: now[k] == was[k]
    requires forall k | loc <= k < |was| :: now[k + 3] == was[k]
    requires now[loc] == op && now[loc + 1] == arg % 256 && now[loc + 2] == (arg / 256) % 256
    ensures now == Insert(was, loc, N.Op1(op, arg))
  {
    ThreeBytes(now, loc, op, arg);
    hide N.Op1;
    assert now[..loc] == was[..loc];
    var tail := now[loc + 3..];
    forall j: nat | j < |tail| ensures tail[j] == was[loc..][j] {
      assert now[loc + j + 3] == was[loc + j];
    }
    assert tail == was[loc..];
    assert now == now[..loc] + now[loc..loc + 3] + now[loc + 3..];
  }

  class Compiler {
    var buffer: array<Byte>
    var used: nat
    var laststart: Option<nat>
    var begalt: nat
    var fixup: Option<nat>
    var pending: Option<nat>
    var regnum: nat
    var opens: seq<Open>

    ghost predicate Valid()
      reads this
    {
      used <= buffer.Length && INIT_BUF_SIZE <= buffer.Length <= MAX_BUF_SIZE
    }

    ghost function Code(): seq<Byte>
      requires Valid()
      reads this, buffer
    {
      buffer[..used]
    }

    ghost function St(): CState
      requires Valid()
      reads this, buffer
    {
      CState(Code(), laststart, begalt, fixup, pending, regnum, opens)
    }

    constructor ()
      ensures Valid() && fresh(buffer) && St() == FRESH
    {
      buffer := new Byte[INIT_BUF_SIZE];
      used, laststart, begalt, fixup, pending, regnum, opens := 0, None, 0, None, None, 0, [];
    }

    /** GET_BUFFER_SPACE: doubles the buffer until `n` more bytes fit. */
    method GetBufferSpace(n: nat) returns (ok: bool)
      requires Valid()
      modifies this`buffer
      ensures Valid() && (buffer == old(buffer) || fresh(buffer))
      ensures St() == old(St())
      ensures ok == HasRoom(old(Code()), n)
      ensures ok ==> used + n <= buffer.Length
    {
      while used + n > buffer.Length
        invariant Valid() && (buffer == old(buffer) || fresh(buffer))
        invariant St() == old(St())
        decreases MAX_BUF_SIZE - buffer.Length
      {
        if buffer.Length == MAX_BUF_SIZE { return false; }
        var size := if 2 * buffer.Length > MAX_BUF_SIZE then MAX_BUF_SIZE else 2 * buffer.Length;
        var bigger := new Byte[size];
        forall i | 0 <= i < used { bigger[i] := buffer[i]; }
        assert bigger[..used] == buffer[..used];
        buffer := bigger;
      }
      ok := true;
    }

    /** Writes bytes for which there is space. */
    method Put(c: Byte)
      requires Valid() && used < buffer.Length
      modifies this`used, buffer
      ensures Valid() && St() == old(St()).(b := old(Code()) + [c])
      ensures used == old(used) + 1
    {
      buffer[used] := c;
      used := used + 1;
      assert buffer[..used] == old(buffer[..used]) + [c];
    }

    /** BUF_PUSH. */
    method BufPush(c: Byte) returns (ok: bool)
      requires Valid()
      modifies this`buffer, this`used, buffer
      ensures Valid() && (buffer == old(buffer) || fresh(buffer))
      ensures ok == HasRoom(old(Code()), 1)
      ensures St() == if ok then old(St()).(b := old(Code()) + [c]) else old(St())
    {
      ok := GetBufferSpace(1);
      if ok { Put(c); }
    }

    /** BUF_PUSH_3. */
    method BufPush3(c1: Byte, c2: Byte, c3: Byte) returns (ok: bool)
      requires Valid()
      modifies this`buffer, this`used, buffer
      ensures Valid() && (buffer == old(buffer) || fresh(buffer))
      ensures ok == HasRoom(old(Code()), 3)
      ensures St() == if ok then old(St()).(b := old(Code()) + [c1, c2, c3]) else old(St())
    {
      ok := GetBufferSpace(3);
      if ok {
        Put(c1);
        Put(c2);
        Put(c3);
      }
    }

    /** store_op1: an opcode and a two-byte number over the three bytes at `loc`. */
    method StoreOp1(op: Byte, loc: nat, arg: int)
      requires Valid() && loc + 3 <= used
      modifies buffer
      ensures St() == old(St()).(b := Store(old(Code()), loc, N.Op1(op, arg)))
    {
      buffer[loc] := op;
      buffer[loc + 1] := arg % 256;
      buffer[loc + 2] := (arg / 256) % 256;
      assert buffer[..used] == old(buffer[..loc]) + N.Op1(op, arg) + old(buffer[loc + 3..used]);
      assert old(Code())[..loc] == old(buffer[..loc]) && old(Code())[loc + 3..] == old(buffer[loc + 3..used]);
    }

    /** insert_op1 with the three bytes it needs already allowed for: moves everything from
        `loc` to the end up by three, byte by byte from the end. */
    method InsertOp1(op: Byte, loc: nat, arg: int)
      requires Valid() && loc <= used && used + 3 <= buffer.Length
      modifies this`used, buffer
      ensures Valid() && St() == old(St()).(b := Insert(old(Code()), loc, N.Op1(op, arg)))
      ensures used == old(used) + 3
    {
      var pfrom := used;
      while pfrom != loc
        invariant loc <= pfrom <= used == old(used)
        invariant forall k :: 0 <= k < pfrom ==> buffer[k] == old(buffer[k])
        invariant forall k :: pfrom <= k < used ==> buffer[k + 3] == old(buffer[k])
      {
        pfrom := pfrom - 1;
        buffer[pfrom + 3] := buffer[pfrom];
      }
      buffer[loc] := op;
      buffer[loc + 1] := arg % 256;
      buffer[loc + 2] := (arg / 256) % 256;
      used := used + 3;
      ghost var was := old(Code());
      hide N.Op1, Insert;
      Shifted(was, Code(), loc, op, arg);
    }

    /** `(*pending_exact)++`. */
    method Increment(at: nat)
      requires Valid() && at < used && buffer[at] < 255
      modifies buffer
      ensures St() == old(St()).(b := old(Code())[at := old(Code())[at] + 1])
    {
      buffer[at] := buffer[at] + 1;
      assert Code() == old(Code())[at := old(Code())[at] + 1];
    }

    /** Starts a new `exactn`, with no character yet. */
    method OpenRun() returns (ok: bool)
      requires Valid()
      modifies this, buffer
      ensures Valid() && (buffer == old(buffer) || fresh(buffer))
      ensures ok == HasRoom(old(Code()), 2)
      ensures ok ==> St() == old(St()).(laststart := Some(old(used)), pending := Some(old(used) + 1),
                                        b := old(Code()) + [N.EXACTN, 0])
    {
      ok := GetBufferSpace(2);
      if ok {
        var at := used;
        Put(N.EXACTN);
        Put(0);
        laststart, pending := Some(at), Some(at + 1);
        assert Code() == old(Code()) + [N.EXACTN, 0];
      }
    }

    /** A new `exactn` with one character. */
    method NewRun(c: Byte) returns (ok: bool)
      requires Valid()
      modifies this, buffer
      ensures Valid() && (buffer == old(buffer) || fresh(buffer))
      ensures ok == HasRoom(old(Code()), 3)
      ensures ok ==> St() == old(St()).(laststart := Some(old(used)), pending := Some(old(used) + 1),
                                        b := old(Code()) + [N.EXACTN, 1, c])
    {
      var at := used + 1;
      ok := OpenRun();
      if !ok { return; }
      ok := BufPush(c);
      if !ok { return; }
      assert Code() == old(Code()) + [N.EXACTN, 0, c];
      Increment(at);
      assert Code() == old(Code()) + [N.EXACTN, 1, c];
    }

    /** One more character in the open `exactn`. */
    method GrowRun(q: nat, c: Byte) returns (ok: bool)
      requires Valid() && q < used && buffer[q] < 255
      modifies this, buffer
      ensures Valid() && (buffer == old(buffer) || fresh(buffer))
      ensures ok == HasRoom(old(Code()), 1)
      ensures ok ==> St() == old(St()).(b := old(Code())[q := old(Code())[q] + 1] + [c])
    {
      ghost var was := Code();
      ok := BufPush(c);
      if !ok { return; }
      assert Code()[q] == was[q];
      Increment(q);
      assert Code() == was[q := was[q] + 1] + [c];
    }

    /** The `normal_char` label. */
    method NormalChar(pat: seq<Byte>, p: nat, c: Byte) returns (r: Result<nat>)
      requires Valid()
      modifies this, buffer
      ensures Valid() && (buffer == old(buffer) || fresh(buffer))
      ensures Follows(r, St(), RegexCompile.NormalChar(old(St()), pat, p, c))
    {
      var next := Peek(pat, p);
      var ok;
      if pending.None? || pending.value >= used || pending.value + buffer[pending.value] + 1 != used
         || buffer[pending.value] == 255
         || next == STAR || next == HAT || next == PLUS || next == QUESTION || next == LBRACE {
        assert StartsRun(St(), next);
        ok := NewRun(c);
      } else {
        assert !StartsRun(St(), next);
        ok := GrowRun(pending.value, c);
      }
      r := if ok then Result.Ok(p) else Result.Err(TooBig);
    }

    /** STORE_JUMP at the end, which moves past it. */
    method AppendJump(op: Byte, arg: int) returns (ok: bool)
      requires Valid()
      modifies this`buffer, this`used, buffer
      ensures Valid() && (buffer == old(buffer) || fresh(buffer))
      ensures ok == HasRoom(old(Code()), 3)
      ensures St() == if ok then old(St()).(b := old(Code()) + N.Op1(op, arg)) else old(St())
    {
      ok := BufPush3(op, arg % 256, (arg / 256) % 256);
    }

    /** INSERT_JUMP, with the space for it. */
    method InsertJumpAt(op: Byte, loc: nat, arg: int) returns (ok: bool)
      requires Valid() && loc <= used
      modifies this`buffer, this`used, buffer
      ensures Valid() && (buffer == old(buffer) || fresh(buffer))
      ensures ok == HasRoom(old(Code()), 3)
      ensures St() == if ok then old(St()).(b := Insert(old(Code()), loc, N.Op1(op, arg))) else old(St())
    {
      ok := GetBufferSpace(3);
      if ok { InsertOp1(op, loc, arg); }
    }

    /** The part of `case '*'` that emits code for the finished expression at `start`. */
    method EmitLoop(start: nat, zero: bool, many: bool) returns (ok: bool)
      requires Valid() && start <= used
      modifies this, buffer
      ensures Valid() && (buffer == old(buffer) || fresh(buffer))
      ensures var b := Repeated(old(Code()), start, zero, many);
              && ok == (|b| <= MAX_BUF_SIZE)
              && (ok ==> St() == old(St()).(b := b, pending := None))
    {
      hide N.Op1;
      RepeatedSize(Code(), start, zero, many);
      OpSize(N.MAYBE_POP_JUMP, (start - 3) - used - 3);
      OpSize(N.ON_FAILURE_JUMP, used + (if many then 3 else 0) + 3 - start - 3);
      OpSize(N.DUMMY_FAILURE_JUMP, start + 6 - start - 3);
      if many {
        ok := AppendJump(N.MAYBE_POP_JUMP, (start - 3) - used - 3);
        if !ok { return; }
      }
      ok := InsertJumpAt(N.ON_FAILURE_JUMP, start, used + 3 - start - 3);
      if !ok { return; }
      pending := None;
      if !zero {
        ok := InsertJumpAt(N.DUMMY_FAILURE_JUMP, start, start + 6 - start - 3);
      }
    }

    /** `case '*'`, with the operator at `p - 1`. */
    method HandleRepeat(pat: seq<Byte>, p: nat) returns (r: Result<nat>)
      requires Valid() && 0 < p <= |pat| && IsOp(pat[p - 1])
      modifies this, buffer
      ensures Valid() && (buffer == old(buffer) || fresh(buffer))
      ensures Follows(r, St(), RepeatOp(old(St()), pat, p))
    {
      var c := pat[p - 1];
      var q := p;
      var zero, many := c != PLUS, c != QUESTION;
      while q < |pat| && IsOp(pat[q])
        invariant p <= q <= |pat|
        invariant OpsEnd(pat, p) == OpsEnd(pat, q)
        invariant zero == ZeroOk(pat[p - 1..q]) && many == ManyOk(pat[p - 1..q])
        invariant Valid() && St() == old(St()) && buffer == old(buffer)
      {
        MoreOps(pat, p - 1, q);
        zero, many := zero || pat[q] != PLUS, many || pat[q] != QUESTION;
        q := q + 1;
      }
      if laststart.None? { return Result.Ok(q); }
      if laststart.value > used { return Result.Err(TooBig); }
      var ok := EmitLoop(laststart.value, zero, many);
      r := if ok then Result.Ok(q) else Result.Err(TooBig);
    }

    /** SET_LIST_BIT in the 32 bytes at `at`. */
    method SetBitAt(at: nat, c: Byte)
      requires Valid() && used <= at && at + 32 <= buffer.Length
      modifies buffer
      ensures buffer[at..at + 32] == SetListBit(old(buffer[at..at + 32]), c)
      ensures St() == old(St())
      ensures buffer[..at] == old(buffer[..at])
    {
      ghost var was := buffer[at..at + 32];
      SetBitFits(buffer[at + c / 8], c % 8, 8);
      buffer[at + c / 8] := SetBit(buffer[at + c / 8], c % 8);
      assert buffer[at..at + 32] == SetListBit(was, c);
      assert buffer[..used] == old(buffer[..used]);
    }

    /** The loop of compile_range. */
    method SetRangeAt(at: nat, lo: Byte, hi: Byte)
      requires Valid() && used <= at && at + 32 <= buffer.Length && lo <= hi
      modifies buffer
      ensures buffer[at..at + 32] == SetListRange(old(buffer[at..at + 32]), lo, hi)
      ensures St() == old(St())
      ensures buffer[..at] == old(buffer[..at])
    {
      var c: nat := lo;
      while c <= hi
        invariant lo <= c <= hi + 1 <= 256
        invariant SetListRange(old(buffer[at..at + 32]), lo, hi) == SetListRange(buffer[at..at + 32], c, hi)
        invariant St() == old(St()) && buffer[..at] == old(buffer[..at])
      {
        SetBitAt(at, c);
        c := c + 1;
      }
    }

    /** The loop over the list of a bracket expression, from `first`; the bitmap is at `at`. */
    method BracketLoop(pat: seq<Byte>, first: nat, at: nat) returns (r: Result<nat>)
      requires Valid() && used <= at && at + 32 <= buffer.Length && 0 < first
      modifies buffer
      ensures St() == old(St())
      ensures buffer[..at] == old(buffer[..at])
      ensures match BracketList(pat, first, first, old(buffer[at..at + 32]))
              case Ok(list) => r == Result.Ok(list.p) && buffer[at..at + 32] == list.bits
              case Err(e) => r == Result.Err(e)
    {
      var p := first;
      while true
        invariant first <= p
        invariant BracketList(pat, first, first, old(buffer[at..at + 32])) == BracketList(pat, first, p, buffer[at..at + 32])
        invariant St() == old(St()) && buffer[..at] == old(buffer[..at])
        decreases |pat| - p
      {
        if p >= |pat| { return Result.Err(UnmatchedBracket); }
        var c := pat[p];
        if c == RBRACKET && p != first { return Result.Ok(p + 1); }
        ghost var bits := buffer[at..at + 32];
        if c == HYPHEN && HyphenInside(pat, p) && Peek(pat, p + 1) != RBRACKET {
          if p + 1 >= |pat| || pat[p - 1] > pat[p + 1] { return Result.Err(InvalidRangeEnd); }
          SetRangeAt(at, pat[p - 1], pat[p + 1]);
          assert BracketItem(pat, p, bits) == Result.Ok(Brackets(p + 2, buffer[at..at + 32]));
          p := p + 2;
        } else if Peek(pat, p + 1) == HYPHEN && Peek(pat, p + 2) != RBRACKET {
          if p + 2 >= |pat| || c > pat[p + 2] { return Result.Err(InvalidRangeEnd); }
          SetRangeAt(at, c, pat[p + 2]);
          assert BracketItem(pat, p, bits) == Result.Ok(Brackets(p + 3, buffer[at..at + 32]));
          p := p + 3;
        } else if c == LBRACKET && Peek(pat, p + 1) == COLON {
          return Result.Err(Unsupported);
        } else {
          SetBitAt(at, c);
          assert BracketItem(pat, p, bits) == Result.Ok(Brackets(p + 1, buffer[at..at + 32]));
          p := p + 1;
        }
      }
    }

    /** Drops the zero bytes at the end of the 32 bytes at `at`. */
    method TrimAt(at: nat) returns (len: nat)
      requires Valid() && at + 32 <= buffer.Length
      ensures len <= 32 && buffer[at..at + len] == Trim(buffer[at..at + 32])
    {
      len := 32;
      while len > 0 && buffer[at + len - 1] == 0
        invariant len <= 32
        invariant Trim(buffer[at..at + len]) == Trim(buffer[at..at + 32])
      {
        assert buffer[at..at + len][..len - 1] == buffer[at..at + len - 1];
        len := len - 1;
      }
      if len > 0 { assert buffer[at..at + len][len - 1] == buffer[at + len - 1]; }
    }

    /** Reads the list of a bracket expression into the space behind the code, two bytes on. */
    method ReadList(pat: seq<Byte>, first: nat) returns (r: Result<nat>, len: nat)
      requires Valid() && used + 34 <= buffer.Length && 0 < first
      modifies buffer
      ensures St() == old(St()) && len <= 32
      ensures match BracketList(pat, first, first, seq(32, _ => 0))
              case Ok(list) => r == Result.Ok(list.p) && buffer[used + 2..used + 2 + len] == Trim(list.bits)
              case Err(e) => r == Result.Err(e)
    {
      hide BracketList, Trim;
      var at := used + 2;
      ClearBits(at);
      r := BracketLoop(pat, first, at);
      len := TrimAt(at);
    }

    /** `case '['`, with `p` just past the bracket. */
    method HandleBracket(pat: seq<Byte>, p: nat) returns (r: Result<nat>)
      requires Valid() && 0 < p <= |pat|
      modifies this, buffer
      ensures Valid() && (buffer == old(buffer) || fresh(buffer))
      ensures Follows(r, St(), BracketExpr(old(St()), pat, p))
    {
      hide BracketList, Trim;
      if p == |pat| { return Result.Err(UnmatchedBracket); }
      var ok := GetBufferSpace(34);
      if !ok { return Result.Err(TooBig); }
      var negated := pat[p] == HAT;
      var len;
      r, len := ReadList(pat, if negated then p + 1 else p);
      if r.Ok? { FinishBracket(if negated then N.CHARSET_NOT else N.CHARSET, len); }
    }

    /** `bzero (b, 32)`. */
    method ClearBits(at: nat)
      requires Valid() && used <= at && at + 32 <= buffer.Length
      modifies buffer
      ensures buffer[at..at + 32] == seq(32, _ => 0) && St() == old(St()) && buffer[..at] == old(buffer[..at])
    {
      forall k | 0 <= k < 32 { buffer[at + k] := 0; }
      assert buffer[..used] == old(buffer[..used]);
    }

    /** The opcode and the size in front of the trimmed bitmap, and the cursor past it. */
    method FinishBracket(op: Byte, len: nat)
      requires Valid() && used + 34 <= buffer.Length && len <= 32
      modifies this`used, this`laststart, buffer
      ensures Valid()
      ensures St() == old(St()).(laststart := Some(old(used)),
                                 b := old(Code()) + [op, len] + old(buffer[used + 2..used + 2 + len]))
    {
      laststart := Some(used);
      buffer[used] := op;
      buffer[used + 1] := len;
      used := used + 2 + len;
      assert buffer[..used] == old(buffer[..used]) + [op, len] + old(buffer[used + 2..used + 2 + len]);
    }

    /** The `handle_open` label. */
    method HandleOpen(p: nat) returns (r: Result<nat>)
      requires Valid()
      modifies this, buffer
      ensures Valid() && (buffer == old(buffer) || fresh(buffer))
      ensures Follows(r, St(), OpenGroup(old(St()), p))
    {
      var open := Open(begalt, fixup, used, regnum + 1);
      assert Code() + [] == Code();
      if regnum + 1 <= MAX_REGNUM {
        var ok := BufPush3(N.START_MEMORY, regnum + 1, 0);
        if !ok { return Result.Err(TooBig); }
      }
      regnum := regnum + 1;
      opens := opens + [open];
      fixup, laststart, begalt, pending := None, None, used, None;
      r := Result.Ok(p);
    }

    /** Fills in the pending jump past the alternatives, if any, to lead to `to`. */
    method FillFixup(to: int)
      requires Valid()
      modifies buffer
      ensures St() == old(St()).(b := Patch(old(Code()), fixup, to))
    {
      match fixup
      case None =>
      case Some(loc) => if loc + 3 <= used { StoreOp1(N.JUMP_PAST_ALT, loc, to - loc - 3); }
    }

    /** What `handle_close` does to the alternatives before it looks at the compile stack. */
    method CloseAlternatives() returns (ok: bool)
      requires Valid()
      modifies this`buffer, this`used, buffer
      ensures Valid() && (buffer == old(buffer) || fresh(buffer))
      ensures ok == (fixup.None? || HasRoom(old(Code()), 1))
      ensures St() == if ok then EndAlternatives(old(St())) else old(St())
    {
      ok := true;
      if fixup.Some? {
        ok := BufPush(N.PUSH_DUMMY_FAILURE);
        if ok { FillFixup(used - 1); }
      }
    }

    /** The `handle_close` label. */
    method HandleClose(pat: seq<Byte>, p: nat) returns (r: Result<nat>)
      requires Valid()
      modifies this, buffer
      ensures Valid() && (buffer == old(buffer) || fresh(buffer))
      ensures Follows(r, St(), CloseGroup(old(St()), pat, p))
    {
      var ok := CloseAlternatives();
      if !ok { return Result.Err(TooBig); }
      if opens == [] {
        r := NormalChar(pat, p, RPAREN);
        return;
      }
      var o := opens[|opens| - 1];
      opens := opens[..|opens| - 1];
      begalt, fixup, laststart, pending := o.begalt, o.fixup, Some(o.laststart), None;
      if o.regnum <= MAX_REGNUM {
        if o.laststart + 2 >= used { return Result.Err(TooBig); }
        ok := PutStop(o.laststart + 2, o.regnum, (regnum - o.regnum) % 256);
        if !ok { return Result.Err(TooBig); }
      }
      r := Result.Ok(p);
    }

    /** The number of inner groups goes into the start of the group; then the end of the group. */
    method PutStop(innerLoc: nat, reg: Byte, inner: Byte) returns (ok: bool)
      requires Valid() && innerLoc < used
      modifies this`buffer, this`used, buffer
      ensures Valid() && (buffer == old(buffer) || fresh(buffer))
      ensures ok == HasRoom(old(Code()), 3)
      ensures ok ==> St() == old(St()).(b := old(Code())[innerLoc := inner] + [N.STOP_MEMORY, reg, inner])
    {
      buffer[innerLoc] := inner;
      assert Code() == old(Code())[innerLoc := inner];
      ok := BufPush3(N.STOP_MEMORY, reg, inner);
    }

    /** Three bytes left for a jump; they hold whatever was there, here `junk`. */
    method LeaveHole(junk: seq<Byte>) returns (ok: bool)
      requires Valid() && |junk| == 3
      modifies this`buffer, this`used, buffer
      ensures Valid() && (buffer == old(buffer) || fresh(buffer))
      ensures ok == HasRoom(old(Code()), 3)
      ensures St() == if ok then old(St()).(b := old(Code()) + junk) else old(St())
    {
      ok := BufPush3(junk[0], junk[1], junk[2]);
      assert junk == [junk[0], junk[1], junk[2]];
    }

    /** The `handle_alt` label. */
    method HandleAlt(p: nat, junk: seq<Byte>) returns (r: Result<nat>)
      requires Valid() && |junk| == 3
      modifies this, buffer
      ensures Valid() && (buffer == old(buffer) || fresh(buffer))
      ensures Follows(r, St(), NextAlternative(old(St()), p, junk))
    {
      if begalt > used { return Result.Err(TooBig); }
      var ok := InsertJumpAt(N.ON_FAILURE_JUMP, begalt, used + 6 - begalt - 3);
      if !ok { return Result.Err(TooBig); }
      pending := None;
      FillFixup(used);
      PatchSize(InsertJump(old(Code()), N.ON_FAILURE_JUMP, begalt, old(used) + 6), fixup, used);
      fixup := Some(used);
      ok := LeaveHole(junk);
      if !ok { return Result.Err(TooBig); }
      laststart, begalt := None, used;
      r := Result.Ok(p);
    }

    /** One command that is a single opcode. */
    method HandleOp(op: Byte, isExpression: bool, p: nat) returns (r: Result<nat>)
      requires Valid()
      modifies this, buffer
      ensures Valid() && (buffer == old(buffer) || fresh(buffer))
      ensures r == if HasRoom(old(Code()), 1) then Result.Ok(p) else Result.Err(TooBig)
      ensures r.Ok? ==> St() == old(St()).(b := old(Code()) + [op],
                                           laststart := if isExpression then Some(old(used)) else old(laststart))
    {
      var start := used;
      var ok := BufPush(op);
      if !ok { return Result.Err(TooBig); }
      if isExpression { laststart := Some(start); }
      r := Result.Ok(p);
    }

    /** One round of the main loop. */
    method HandleOne(pat: seq<Byte>, p: nat, junk: seq<Byte>) returns (r: Result<nat>)
      requires Valid() && p < |pat| && |junk| == 3
      modifies this, buffer
      ensures Valid() && (buffer == old(buffer) || fresh(buffer))
      ensures Follows(r, St(), CompileOne(pat, p, old(St()), junk))
    {
      hide RepeatOp, BracketExpr, OpenGroup, RegexCompile.CloseGroup, NextAlternative, RegexCompile.NormalChar;
      var c := pat[p];
      if c == HAT { r := HandleOp(N.BEGLINE, false, p + 1); }
      else if c == DOLLAR { r := HandleOp(N.ENDLINE, false, p + 1); }
      else if IsOp(c) { r := HandleRepeat(pat, p + 1); }
      else if c == DOT { r := HandleOp(N.ANYCHAR, true, p + 1); }
      else if c == LBRACKET { r := HandleBracket(pat, p + 1); }
      else if c == LPAREN { r := HandleOpen(p + 1); }
      else if c == RPAREN { r := HandleClose(pat, p + 1); }
      else if c == BAR { r := HandleAlt(p + 1, junk); }
      else if c == LBRACE { r := Result.Err(Unsupported); }
      else if c == BACKSLASH {
        if p + 1 == |pat| { r := Result.Err(TrailingBackslash); }
        else if IsEscapeCode(pat[p + 1]) { r := Result.Err(Unsupported); }
        else { r := NormalChar(pat, p + 2, pat[p + 1]); }
      }
      else { r := NormalChar(pat, p + 1, c); }
    }
  }

  lemma PatchSize(b: seq<Byte>, fixup: Option<nat>, to: int)
    ensures |Patch(b, fixup, to)| == |b|
  {
  }

  lemma RepeatedSize(b: seq<Byte>, start: nat, zero: bool, many: bool)
    requires start <= |b|
    ensures |Repeated(b, start, zero, many)| == |b| + 3 + (if many then 3 else 0) + (if zero then 0 else 3)
  {
  }

  /** One more operator in a run. */
  lemma MoreOps(pat: seq<Byte>, i: nat, q: nat)
    requires i < q < |pat|
    ensures ZeroOk(pat[i..q + 1]) <==> ZeroOk(pat[i..q]) || pat[q] != PLUS
    ensures ManyOk(pat[i..q + 1]) <==> ManyOk(pat[i..q]) || pat[q] != QUESTION
  {
    var a, b := pat[i..q], pat[i..q + 1];
    assert b == a + [pat[q]];
    if ZeroOk(a) { var k :| 0 <= k < |a| && a[k] != 43; assert b[k] != 43; }
    if ManyOk(a) { var k :| 0 <= k < |a| && a[k] != 63; assert b[k] != 63; }
    assert b[|a|] == pat[q];
    if ZeroOk(b) { var k :| 0 <= k < |b| && b[k] != 43; if k < |a| { assert a[k] != 43; } }
    if ManyOk(b) { var k :| 0 <= k < |b| && b[k] != 63; if k < |a| { assert a[k] != 63; } }
  }

  /** regex_compile: the method computes what the specification `Compile` says. */
  method CompilePattern(pat: seq<Byte>, junk: seq<Byte>) returns (r: Result<Compiled>)
    requires |junk| == 3
    ensures r == Compile(pat, junk)
  {
    var c := new Compiler();
    var p := 0;
    while p != |pat|
      invariant p <= |pat| && c.Valid() && fresh(c) && fresh(c.buffer)
      invariant Compile(pat, junk) == CompileFrom(pat, p, c.St(), junk)
      decreases |pat| - p
    {
      var next := c.HandleOne(pat, p, junk);
      match next
      case Err(e) => return Result.Err(e);
      case Ok(q) => p := q;
    }
    if c.opens != [] { return Result.Err(UnmatchedParen); }
    c.FillFixup(c.used);
    r := Result.Ok(Compiled(c.buffer[..c.used], c.regnum));
  }
}
