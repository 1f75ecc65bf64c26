/** The tunnel loop of src/equeue-ssl/infos/easy_tls/easy-tls.c: two buffers between a
    clear-text socket and a TLS connection, with non-blocking attempts to read and
    write.  The asserts of the loop and those on offsets and lengths in the four
    attempts are asserts here.  Those on return codes of OpenSSL and of the system calls
    follow from the types that stand for these codes.
 */
module TlsTunnel {

  const SIZE := 16384

  // -------------------------------------------------------------- buffers

  /** `struct tunnelbuf`.  The ghost fields are the bytes that went in and out. */
  class TunnelBuf {
    const buf: array<int>
    var offset: int
    var len: int
    ghost var received: seq<int>
    ghost var delivered: seq<int>
    ghost var dropped: bool

    ghost predicate Valid()
      reads this, buf
    {
      && buf.Length == SIZE
      && 0 <= offset && 0 <= len && offset + len <= SIZE
      && (len == 0 ==> offset == 0)
      && (if dropped then len == 0 && delivered <= received else received == delivered + Pending())
    }

    ghost function Pending(): seq<int>
      requires buf.Length == SIZE && 0 <= offset && 0 <= len && offset + len <= SIZE
      reads this, buf
    {
      buf[offset..offset + len]
    }

    /** Where the bytes that are waiting end. */
    function End(): int
      reads this
    {
      offset + len
    }

    constructor ()
      ensures Valid() && fresh(buf) && len == 0 && received == [] && delivered == [] && !dropped
    {
      buf := new int[SIZE];
      offset, len := 0, 0;
      received, delivered, dropped := [], [], false;
    }

    /** After a read: `data` was put behind the bytes that are there. */
    method Append(data: seq<int>)
      requires Valid() && !dropped && offset + len + |data| <= SIZE && data != []
      modifies this, buf
      ensures Valid() && !dropped && offset == old(offset) && len == old(len) + |data|
      ensures Pending() == old(Pending()) + data
      ensures received == old(received) + data && delivered == old(delivered)
    {
      var total := offset + len;
      forall i | 0 <= i < |data| { buf[total + i] := data[i]; }
      assert buf[offset..total] == old(buf[offset..total]) && buf[total..total + |data|] == data;
      len := len + |data|;
      received := received + data;
      assert Pending() == buf[offset..total] + buf[total..total + |data|];
      assert old(received) + data == delivered + (old(Pending()) + data);
    }

    /** After a write: the first `n` bytes are gone. */
    method Consume(n: int)
      requires Valid() && !dropped && 0 < n <= len
      modifies this
      ensures Valid() && !dropped && len == old(len) - n && offset == if n == old(len) then 0 else old(offset) + n
      ensures Pending() == old(Pending())[n..]
      ensures received == old(received) && delivered == old(delivered) + old(Pending())[..n]
    {
      ghost var p := Pending();
      delivered := delivered + p[..n];
      len := len - n;
      assert len >= 0;
      if len == 0 { offset := 0; } else { offset := offset + n; }
      assert p == p[..n] + p[n..];
      assert Pending() == p[n..];
    }

    /** The bytes are given up because the other side is closed. */
    method Drop()
      requires Valid()
      modifies this
      ensures Valid() && len == 0 && received == old(received) && delivered == old(delivered) && dropped
    {
      offset, len := 0, 0;
      dropped := true;
    }
  }

  // -------------------------------------------------------------- results

  /** What SSL_get_error says after a call that returned `n`. */
  datatype Ssl = Success | ZeroReturn | WantWrite | WantRead | SslFatal

  /** What read or write on the clear-text socket did. */
  datatype Sys = Moved | Nothing | Again | BrokenPipe | SysFatal

  datatype Flags = Flags(writeSelect: bool, readSelect: bool, closed: bool, progress: bool)

  /** `tls_get_error`; `ok` is the return code 0. */
  method TlsGetError(r: Ssl, f: Flags) returns (ok: bool, f': Flags)
    ensures ok <==> !r.SslFatal?
    ensures f' == match r
      case Success => f.(progress := true)
      case ZeroReturn => f.(closed := true, progress := true)
      case WantWrite => f.(writeSelect := true)
      case WantRead => f.(readSelect := true)
      case SslFatal => f
  {
    match r
    case Success => return true, f.(progress := true);
    case ZeroReturn => return true, f.(closed := true, progress := true);
    case WantWrite => return true, f.(writeSelect := true);
    case WantRead => return true, f.(readSelect := true);
    case SslFatal => return false, f;
  }

  /** `get_error`; the select flag is the read or the write flag of the caller. */
  method GetError(r: Sys, select: bool, closed: bool, progress: bool)
    returns (ok: bool, select': bool, closed': bool, progress': bool)
    ensures ok <==> !r.SysFatal?
    ensures select' == (select || r.Again?)
    ensures closed' == (closed || r.Nothing? || r.BrokenPipe?)
    ensures progress' == (progress || r.Moved? || r.Nothing? || r.BrokenPipe?)
  {
    ok, select', closed', progress' := true, select, closed, progress;
    match r
    case Moved => progress' := true;
    case Nothing => progress', closed' := true, true;
    case Again => select' := true;
    case BrokenPipe => progress', closed' := true, true;
    case SysFatal => ok := false;
  }

  // ------------------------------------------------------------ the two ends

  /** A write that did not finish has to be repeated from the same place, with at least
      the same bytes. */
  datatype Retry = NoRetry | MustRepeat(offset: int, data: seq<int>)

  /** How many of `len` bytes a successful write takes: the environment's choice `n`, if
      it makes sense. */
  function Taken(n: int, len: int): int { if 0 < n <= len then n else len }

  /** The bytes a successful read returns: what is there, as much as fits. */
  function Fit(data: seq<int>, space: int): seq<int>
  {
    if |data| <= space then data else if space <= 0 then [] else data[..space]
  }

  /** The TLS connection.  `input` and `output` are the bytes that have gone through. */
  class SslConnection {
    ghost var retry: Retry
    ghost var input: seq<int>
    ghost var output: seq<int>

    constructor ()
      ensures retry.NoRetry? && input == output == []
    {
      retry, input, output := NoRetry, [], [];
    }

    /** SSL_write.  `r` and `n` are the environment's choice. */
    method Write(ghost offset: int, data: seq<int>, r: Ssl, n: int) returns (taken: int)
      requires data != []
      requires retry.MustRepeat? ==> offset == retry.offset && retry.data <= data
      modifies this
      ensures taken == (if r.Success? then Taken(n, |data|) else 0) && 0 <= taken <= |data|
      ensures retry == if r.WantWrite? || r.WantRead? then MustRepeat(offset, data) else NoRetry
      ensures input == old(input) && output == old(output) + data[..taken]
    {
      taken := if r.Success? then Taken(n, |data|) else 0;
      retry := if r.WantWrite? || r.WantRead? then MustRepeat(offset, data) else NoRetry;
      output := output + data[..taken];
    }

    /** SSL_read */
    method Read(space: nat, r: Ssl, data: seq<int>) returns (got: seq<int>)
      requires space > 0 && (r.Success? ==> data != [])
      modifies this
      ensures got == (if r.Success? then Fit(data, space) else []) && |got| <= space && (got != [] <==> r.Success?)
      ensures input == old(input) + got && output == old(output) && retry == old(retry)
    {
      got := if r.Success? then Fit(data, space) else [];
      input := input + got;
    }
  }

  /** The clear-text socket. */
  class Socket {
    ghost var input: seq<int>
    ghost var output: seq<int>

    constructor ()
      ensures input == output == []
    {
      input, output := [], [];
    }

    method Write(data: seq<int>, r: Sys, n: int) returns (taken: int)
      requires data != []
      modifies this
      ensures taken == (if r.Moved? then Taken(n, |data|) else 0) && 0 <= taken <= |data|
      ensures input == old(input) && output == old(output) + data[..taken]
    {
      taken := if r.Moved? then Taken(n, |data|) else 0;
      output := output + data[..taken];
    }

    method Read(space: nat, r: Sys, data: seq<int>) returns (got: seq<int>)
      requires space > 0 && (r.Moved? ==> data != [])
      modifies this
      ensures got == (if r.Moved? then Fit(data, space) else []) && |got| <= space && (got != [] <==> r.Moved?)
      ensures input == old(input) + got && output == old(output)
    {
      got := if r.Moved? then Fit(data, space) else [];
      input := input + got;
    }
  }

  // ------------------------------------------------------------- attempts

  /** The flags after a TLS call, if it was made. */
  function TlsFlags(f: Flags, made: bool, r: Ssl): Flags
  {
    if !made then f
    else Flags(f.writeSelect || r.WantWrite?, f.readSelect || r.WantRead?,
               f.closed || r.ZeroReturn?, f.progress || r.Success? || r.ZeroReturn?)
  }

  /** The flags after a call on the clear-text socket, if it was made. */
  function SysFlags(f: Flags, made: bool, r: Sys): Flags
  {
    if !made then f
    else f.(closed := f.closed || r.Nothing? || r.BrokenPipe?,
            progress := f.progress || r.Moved? || r.Nothing? || r.BrokenPipe?)
  }

  /** `n` bytes have left the buffer. */
  twostate predicate Sent(b: TunnelBuf, n: int)
    reads b, b.buf
  {
    && b.Valid() && !b.dropped && old(b.Valid()) && 0 <= n <= old(b.len)
    && b.received == old(b.received) && b.delivered == old(b.delivered) + old(b.Pending())[..n]
    && b.len == old(b.len) - n && b.Pending() == old(b.Pending())[n..]
    && b.offset == if n == 0 then old(b.offset) else if n == old(b.len) then 0 else old(b.offset) + n
  }

  /** `got` has come behind what is in the buffer. */
  twostate predicate Came(b: TunnelBuf, got: seq<int>)
    reads b, b.buf
  {
    && b.Valid() && !b.dropped && old(b.Valid())
    && b.received == old(b.received) + got && b.delivered == old(b.delivered)
    && b.len == old(b.len) + |got| && b.offset == old(b.offset) && b.Pending() == old(b.Pending()) + got
  }

  /** `tls_write_attempt` */
  method TlsWriteAttempt(ssl: SslConnection, b: TunnelBuf, r: Ssl, n: int, f: Flags)
    returns (ok: bool, f': Flags)
    requires b.Valid() && !b.dropped && b.len > 0
    requires ssl.retry.MustRepeat? ==> b.offset == ssl.retry.offset && ssl.retry.data <= b.Pending()
    modifies ssl, b
    ensures ok <==> !r.SslFatal?
    ensures f' == TlsFlags(f, true, r)
    ensures Sent(b, if r.Success? then Taken(n, old(b.len)) else 0)
    ensures ssl.input == old(ssl.input)
    ensures ssl.output == old(ssl.output) + old(b.Pending())[..if r.Success? then Taken(n, old(b.len)) else 0]
    ensures ssl.retry.MustRepeat? <==> r.WantWrite? || r.WantRead?
    ensures ssl.retry.MustRepeat? ==> b.offset == ssl.retry.offset && ssl.retry.data == b.Pending()
  {
    var data := b.buf[b.offset..b.offset + b.len];
    var taken := ssl.Write(b.offset, data, r, n);
    ok, f' := TlsGetError(r, f);
    if taken > 0 { b.Consume(taken); }
  }

  /** `tls_read_attempt` */
  method TlsReadAttempt(ssl: SslConnection, b: TunnelBuf, r: Ssl, data: seq<int>, f: Flags)
    returns (ok: bool, f': Flags, ghost got: seq<int>)
    requires b.Valid() && !b.dropped && b.offset + b.len < SIZE && (r.Success? ==> data != [])
    modifies ssl, b, b.buf
    ensures ok <==> !r.SslFatal?
    ensures f' == TlsFlags(f, true, r)
    ensures got == if r.Success? then Fit(data, SIZE - old(b.End())) else []
    ensures Came(b, got) && ssl.input == old(ssl.input) + got && ssl.output == old(ssl.output)
    ensures ssl.retry == old(ssl.retry)
  {
    var total := b.offset + b.len;
    assert total < SIZE;
    var bytes := ssl.Read(SIZE - total, r, data);
    ok, f' := TlsGetError(r, f);
    if |bytes| > 0 {
      b.Append(bytes);
      assert b.offset + b.len <= SIZE;
    }
    got := bytes;
  }

  /** `write_attempt` */
  method WriteAttempt(socket: Socket, b: TunnelBuf, r: Sys, n: int, select: bool, f: Flags)
    returns (ok: bool, select': bool, f': Flags)
    requires b.Valid() && !b.dropped && b.len > 0
    modifies socket, b
    ensures ok <==> !r.SysFatal?
    ensures select' == (select || r.Again?) && f' == SysFlags(f, true, r)
    ensures Sent(b, if r.Moved? then Taken(n, old(b.len)) else 0)
    ensures socket.input == old(socket.input)
    ensures socket.output == old(socket.output) + old(b.Pending())[..if r.Moved? then Taken(n, old(b.len)) else 0]
  {
    var data := b.buf[b.offset..b.offset + b.len];
    var taken := socket.Write(data, r, n);
    var closed, progress;
    ok, select', closed, progress := GetError(r, select, f.closed, f.progress);
    f' := f.(closed := closed, progress := progress);
    if taken > 0 { b.Consume(taken); }
  }

  /** `read_attempt` */
  method ReadAttempt(socket: Socket, b: TunnelBuf, r: Sys, data: seq<int>, select: bool, f: Flags)
    returns (ok: bool, select': bool, f': Flags, ghost got: seq<int>)
    requires b.Valid() && !b.dropped && b.offset + b.len < SIZE && (r.Moved? ==> data != [])
    modifies socket, b, b.buf
    ensures ok <==> !r.SysFatal?
    ensures select' == (select || r.Again?) && f' == SysFlags(f, true, r)
    ensures got == if r.Moved? then Fit(data, SIZE - old(b.End())) else []
    ensures Came(b, got) && socket.input == old(socket.input) + got && socket.output == old(socket.output)
  {
    var total := b.offset + b.len;
    assert total < SIZE;
    var bytes := socket.Read(SIZE - total, r, data);
    var closed, progress;
    ok, select', closed, progress := GetError(r, select, f.closed, f.progress);
    f' := f.(closed := closed, progress := progress);
    if |bytes| > 0 {
      b.Append(bytes);
      assert b.offset + b.len <= SIZE;
    }
    got := bytes;
  }

  /** A TLS call was made, and it failed or met the end of the connection. */
  predicate Failed(made: bool, r: Ssl) { made && (r.SslFatal? || r.ZeroReturn?) }

  /** A call on the socket was made, and it failed or met the end of the stream. */
  predicate Ended(made: bool, r: Sys) { made && (r.SysFatal? || r.Nothing? || r.BrokenPipe?) }

  /** What the flags are after the four calls. */
  lemma FlagsMean(f: Flags, tw: bool, r1: Ssl, cw: bool, r2: Sys, cr: bool, r3: Sys, tr: bool, r4: Ssl, f': Flags)
    requires f' == TlsFlags(SysFlags(SysFlags(TlsFlags(f, tw, r1), cw, r2), cr, r3), tr, r4)
    ensures f'.readSelect <==> f.readSelect || (tw && r1.WantRead?) || (tr && r4.WantRead?)
    ensures f'.writeSelect <==> f.writeSelect || (tw && r1.WantWrite?) || (tr && r4.WantWrite?)
    ensures f'.closed <==> f.closed || (tw && r1.ZeroReturn?) || (cw && (r2.Nothing? || r2.BrokenPipe?)) ||
                           (cr && (r3.Nothing? || r3.BrokenPipe?)) || (tr && r4.ZeroReturn?)
    ensures f'.progress <==> f.progress || (tw && (r1.Success? || r1.ZeroReturn?)) ||
                             (cw && (r2.Moved? || r2.Nothing? || r2.BrokenPipe?)) ||
                             (cr && (r3.Moved? || r3.Nothing? || r3.BrokenPipe?)) ||
                             (tr && (r4.Success? || r4.ZeroReturn?))
  {
  }

  // ------------------------------------------------------------- the loop

  /** What the outside world does in one iteration: results of the handshake, of the
      four attempts (with byte counts and data), and whether bytes passed through the
      TLS connection underneath. */
  datatype World = World(handshake: Ssl, inInit: bool, tlsWrite: Ssl, tlsTaken: int,
                         clearWrite: Sys, clearTaken: int, clearRead: Sys, clearData: seq<int>,
                         tlsRead: Ssl, tlsData: seq<int>, bioMoved: bool)

  ghost predicate WorldOk(w: World)
  {
    (w.clearRead.Moved? ==> w.clearData != []) && (w.tlsRead.Success? ==> w.tlsData != [])
  }

  /** How an iteration ends: go on at once, wait in select for at least one of four
      events, leave because a side was closed, or leave with an error. */
  datatype Outcome = GoOn | Select(clearRead: bool, tlsRead: bool, clearWrite: bool, tlsWrite: bool) | Closed | Error

  /** Which of the four attempts an iteration makes, and what they move: `len1` bytes wait
      for the TLS side and end at `end1`, `len2` bytes for the clear side and end at `end2`.
      TLS calls are made only after the handshake, writes only of bytes that wait, reads
      only into free space, and nothing after a failure or the end of a connection. */
  ghost predicate Made(w: World, inHandshake: bool, len1: int, end1: int, len2: int, end2: int,
                       tw: bool, n1: int, cw: bool, n2: int, cr: bool, got1: seq<int>, tr: bool, got2: seq<int>)
  {
    var stopped := Failed(tw, w.tlsWrite) || Ended(cw, w.clearWrite);
    && (tw <==> len1 != 0 && !inHandshake)
    && (cw <==> len2 != 0 && !Failed(tw, w.tlsWrite))
    && (cr <==> !stopped && (n1 == len1 || end1 < SIZE))
    && (tr <==> !stopped && !Ended(cr, w.clearRead) && !inHandshake && (n2 == len2 || end2 < SIZE))
    && n1 == (if tw && w.tlsWrite.Success? then Taken(w.tlsTaken, len1) else 0)
    && n2 == (if cw && w.clearWrite.Moved? then Taken(w.clearTaken, len2) else 0)
    && got1 == (if cr && w.clearRead.Moved? then Fit(w.clearData, SIZE - if n1 == len1 then 0 else end1) else [])
    && got2 == (if tr && w.tlsRead.Success? then Fit(w.tlsData, SIZE - if n2 == len2 then 0 else end2) else [])
  }

  lemma AttemptsMade(w: World, inHandshake: bool, len1: int, end1: int, len2: int, end2: int,
                     writing: bool, f: Flags, from1: int, from2: int,
                     tw: bool, n1: int, cw: bool, n2: int, cr: bool, got1: seq<int>, tr: bool, got2: seq<int>)
    requires tw <==> len1 != 0 && !inHandshake
    requires n1 == if tw && w.tlsWrite.Success? then Taken(w.tlsTaken, len1) else 0
    requires cw <==> len2 != 0 && !Failed(tw, w.tlsWrite)
    requires n2 == if cw && w.clearWrite.Moved? then Taken(w.clearTaken, len2) else 0
    requires writing && !f.closed <==> !Failed(tw, w.tlsWrite) && !Ended(cw, w.clearWrite)
    requires if writing && !f.closed
             then
               && from1 == (if n1 == len1 then 0 else end1) && from2 == (if n2 == len2 then 0 else end2)
               && (cr <==> from1 < SIZE)
               && (tr <==> !Ended(cr, w.clearRead) && !inHandshake && from2 < SIZE)
               && got1 == (if cr && w.clearRead.Moved? then Fit(w.clearData, SIZE - from1) else [])
               && got2 == (if tr && w.tlsRead.Success? then Fit(w.tlsData, SIZE - from2) else [])
             else !cr && !tr && got1 == got2 == []
    ensures Made(w, inHandshake, len1, end1, len2, end2, tw, n1, cw, n2, cr, got1, tr, got2)
    ensures (tw && w.tlsWrite.ZeroReturn?) || (cw && (w.clearWrite.Nothing? || w.clearWrite.BrokenPipe?)) ==>
              !(writing && !f.closed)
  {
    hide Taken, Fit;
  }

  lemma FlagsNone(f: Flags, w: World)
    ensures TlsFlags(SysFlags(f, false, w.clearRead), false, w.tlsRead) == f
  {
  }

  /** How an iteration ends, from the calls that were made and what they returned.  It ends
      in error when a call failed; with the end of the loop when a call found a side closed;
      in another round when a call moved something; and otherwise in a wait.  This is for
      the TLS side to be readable if and only if a TLS call wanted to read, to be writable
      if and only if one wanted to write, for the clear side if and only if the call there
      would have blocked, and never for nothing. */
  ghost predicate Verdict(w: World, hs: bool, tw: bool, cw: bool, cr: bool, tr: bool, outcome: Outcome)
  {
    && (outcome.Error? <==>
          Failed(hs, w.handshake) || (tw && w.tlsWrite.SslFatal?) || (tr && w.tlsRead.SslFatal?) ||
          (cw && w.clearWrite.SysFatal?) || (cr && w.clearRead.SysFatal?))
    && (outcome.Closed? <==>
          (tw && w.tlsWrite.ZeroReturn?) || (tr && w.tlsRead.ZeroReturn?) ||
          (cw && (w.clearWrite.Nothing? || w.clearWrite.BrokenPipe?)) ||
          (cr && (w.clearRead.Nothing? || w.clearRead.BrokenPipe?)))
    && (outcome.GoOn? <==>
          !outcome.Error? && !outcome.Closed? &&
          ((hs && w.handshake.Success?) || (tw && w.tlsWrite.Success?) || (tr && w.tlsRead.Success?) ||
           (cw && w.clearWrite.Moved?) || (cr && w.clearRead.Moved?) || w.bioMoved))
    && (outcome.Select? ==>
          && (outcome.tlsRead <==>
                (hs && w.handshake.WantRead?) || (tw && w.tlsWrite.WantRead?) || (tr && w.tlsRead.WantRead?))
          && (outcome.tlsWrite <==>
                (hs && w.handshake.WantWrite?) || (tw && w.tlsWrite.WantWrite?) || (tr && w.tlsRead.WantWrite?))
          && (outcome.clearRead <==> cr && w.clearRead.Again?)
          && (outcome.clearWrite <==> cw && w.clearWrite.Again?)
          && (outcome.clearRead || outcome.tlsRead || outcome.clearWrite || outcome.tlsWrite))
  }

  /** The end of an iteration.  The ghost parameters say whether it began in the handshake
      and which attempts were made. */
  method Finish(w: World, ghost hs: bool, ok: bool, ghost f0: Flags, f: Flags, clearReadSelect: bool,
                clearWriteSelect: bool, ghost inHandshake: bool, ghost len1: int, ghost end1: int, ghost len2: int,
                ghost end2: int, ghost tw: bool, ghost n1: int, ghost cw: bool, ghost n2: int,
                ghost cr: bool, ghost got1: seq<int>, ghost tr: bool, ghost got2: seq<int>)
    returns (outcome: Outcome)
    requires !Failed(hs, w.handshake) && f0 == TlsFlags(Flags(false, false, false, false), hs, w.handshake)
    requires f == TlsFlags(SysFlags(SysFlags(TlsFlags(f0, tw, w.tlsWrite), cw, w.clearWrite), cr, w.clearRead),
                           tr, w.tlsRead)
    requires ok <==> !(tw && w.tlsWrite.SslFatal?) && !(cw && w.clearWrite.SysFatal?) &&
                     !(cr && w.clearRead.SysFatal?) && !(tr && w.tlsRead.SslFatal?)
    requires clearReadSelect == (cr && w.clearRead.Again?) && clearWriteSelect == (cw && w.clearWrite.Again?)
    requires Made(w, inHandshake, len1, end1, len2, end2, tw, n1, cw, n2, cr, got1, tr, got2) && (inHandshake ==> hs)
    ensures Verdict(w, hs, tw, cw, cr, tr, outcome)
    ensures !outcome.Error? && !outcome.Closed? ==> ok && !f.closed
  {
    FlagsMean(f0, tw, w.tlsWrite, cw, w.clearWrite, cr, w.clearRead, tr, w.tlsRead, f);
    hide SysFlags;
    if !ok { return Error; }
    var progress := f.progress || w.bioMoved;
    if f.closed { return Closed; }
    if progress { return GoOn; }
    assert clearReadSelect || f.readSelect || clearWriteSelect || f.writeSelect;
    return Select(clearReadSelect, f.readSelect, clearWriteSelect, f.writeSelect);
  }

  lemma HandshakeFailed(w: World, hs: bool)
    requires Failed(hs, w.handshake)
    ensures Verdict(w, hs, false, false, false, false, Error)
  {
  }

  class Tunnel {
    const ssl: SslConnection
    const clear: Socket
    const clearToTls: TunnelBuf
    const tlsToClear: TunnelBuf
    var inHandshake: bool

    /** The buffers are in order, and what went through them is what went through the
        two ends. */
    ghost predicate Linked()
      reads ssl, clear, clearToTls, tlsToClear, clearToTls.buf, tlsToClear.buf
    {
      && clearToTls != tlsToClear && clearToTls.buf != tlsToClear.buf
      && clearToTls.Valid() && tlsToClear.Valid()
      && clear.input == clearToTls.received && ssl.output == clearToTls.delivered
      && ssl.input == tlsToClear.received && clear.output == tlsToClear.delivered
    }

    /** The state at the head of the loop. */
    ghost predicate Ready()
      reads ssl, clear, clearToTls, tlsToClear, clearToTls.buf, tlsToClear.buf
    {
      && Linked() && !clearToTls.dropped && !tlsToClear.dropped
      && RetryOk()
    }

    /** An unfinished SSL_write can be repeated from where it was. */
    ghost predicate RetryOk()
      requires clearToTls.Valid()
      reads ssl, clearToTls, clearToTls.buf
    {
      ssl.retry.MustRepeat? ==> clearToTls.offset == ssl.retry.offset && ssl.retry.data <= clearToTls.Pending()
    }

    constructor ()
      ensures Ready() && inHandshake
      ensures clear.input == [] && ssl.input == [] && clear.output == [] && ssl.output == []
      ensures fresh(ssl) && fresh(clear) && fresh(clearToTls) && fresh(tlsToClear)
      ensures fresh(clearToTls.buf) && fresh(tlsToClear.buf)
    {
      ssl := new SslConnection();
      clear := new Socket();
      clearToTls := new TunnelBuf();
      tlsToClear := new TunnelBuf();
      inHandshake := true;
    }

    /** The attempt to write to the TLS side. */
    method WriteTls(w: World, f: Flags) returns (ok: bool, f': Flags, ghost made: bool, ghost n: int)
      requires Ready() && !f.closed
      modifies ssl, clearToTls, tlsToClear
      ensures made <==> old(clearToTls.len) != 0 && !inHandshake
      ensures n == if made && w.tlsWrite.Success? then Taken(w.tlsTaken, old(clearToTls.len)) else 0
      ensures ok <==> !(made && w.tlsWrite.SslFatal?)
      ensures f' == TlsFlags(f, made, w.tlsWrite)
      ensures Linked() && Sent(clearToTls, n)
      ensures !f'.closed ==> Ready() && Sent(tlsToClear, 0)
      ensures f'.closed ==> tlsToClear.len == 0
      ensures tlsToClear.received == old(tlsToClear.received) && tlsToClear.delivered == old(tlsToClear.delivered)
    {
      ok, f', made, n := true, f, false, 0;
      if clearToTls.len != 0 && !inHandshake {
        assert !f'.closed;
        made := true;
        n := if w.tlsWrite.Success? then Taken(w.tlsTaken, clearToTls.len) else 0;
        ok, f' := TlsWriteAttempt(ssl, clearToTls, w.tlsWrite, w.tlsTaken, f');
        if ok && f'.closed {
          assert f'.progress;
          tlsToClear.Drop();
        }
      }
    }

    /** The attempt to write to the clear-text side. */
    method WriteClear(w: World, f: Flags)
      returns (ok: bool, f': Flags, clearWriteSelect: bool, ghost made: bool, ghost n: int)
      requires Linked() && !clearToTls.dropped && (f.closed ==> tlsToClear.len == 0 && f.progress)
      requires !f.closed ==> Ready()
      modifies clear, clearToTls, tlsToClear
      ensures made <==> old(tlsToClear.len) != 0
      ensures n == if made && w.clearWrite.Moved? then Taken(w.clearTaken, old(tlsToClear.len)) else 0
      ensures ok <==> !(made && w.clearWrite.SysFatal?)
      ensures f' == SysFlags(f, made, w.clearWrite) && clearWriteSelect == (made && w.clearWrite.Again?)
      ensures Linked()
      ensures ok && !f'.closed ==> Ready() && Sent(clearToTls, 0) && Sent(tlsToClear, n)
      ensures made && ok && f'.closed ==> clearToTls.len == 0
      ensures !made ==> tlsToClear.len == old(tlsToClear.len)
      ensures clearToTls.received == old(clearToTls.received) && clearToTls.delivered == old(clearToTls.delivered)
      ensures tlsToClear.received == old(tlsToClear.received)
      ensures old(tlsToClear.Valid()) && 0 <= n <= old(tlsToClear.len)
      ensures tlsToClear.delivered == old(tlsToClear.delivered) + old(tlsToClear.Pending())[..n]
    {
      hide RetryOk, Taken;
      ok, f', clearWriteSelect, made, n := true, f, false, false, 0;
      if tlsToClear.len != 0 {
        assert !f'.closed;
        made := true;
        n := if w.clearWrite.Moved? then Taken(w.clearTaken, tlsToClear.len) else 0;
        ok, clearWriteSelect, f' := WriteAttempt(clear, tlsToClear, w.clearWrite, w.clearTaken, clearWriteSelect, f');
        if ok && f'.closed {
          assert f'.progress;
          clearToTls.Drop();
        }
      }
    }

    /** The attempt to read from the clear-text side. */
    method ReadClear(w: World, f: Flags)
      returns (ok: bool, f': Flags, clearReadSelect: bool, ghost made: bool, ghost got: seq<int>)
      requires Ready() && !f.closed && WorldOk(w)
      modifies clear, clearToTls, clearToTls.buf
      ensures made <==> old(clearToTls.End()) < SIZE
      ensures got == if made && w.clearRead.Moved? then Fit(w.clearData, SIZE - old(clearToTls.End()))
                     else []
      ensures ok <==> !(made && w.clearRead.SysFatal?)
      ensures f' == SysFlags(f, made, w.clearRead) && clearReadSelect == (made && w.clearRead.Again?)
      ensures Ready() && Came(clearToTls, got)
    {
      ok, f', clearReadSelect, made, got := true, f, false, false, [];
      if clearToTls.offset + clearToTls.len < SIZE {
        made := true;
        ok, clearReadSelect, f', got :=
          ReadAttempt(clear, clearToTls, w.clearRead, w.clearData, clearReadSelect, f');
      }
    }

    /** The attempt to read from the TLS side. */
    method ReadTls(w: World, f: Flags) returns (ok: bool, f': Flags, ghost made: bool, ghost got: seq<int>)
      requires Ready() && WorldOk(w)
      modifies ssl, tlsToClear, tlsToClear.buf
      ensures made <==> !f.closed && !inHandshake && old(tlsToClear.End()) < SIZE
      ensures got == if made && w.tlsRead.Success? then Fit(w.tlsData, SIZE - old(tlsToClear.End()))
                     else []
      ensures ok <==> !(made && w.tlsRead.SslFatal?)
      ensures f' == TlsFlags(f, made, w.tlsRead)
      ensures Ready() && Came(tlsToClear, got)
    {
      ok, f', made, got := true, f, false, [];
      if !f'.closed && !inHandshake {
        if tlsToClear.offset + tlsToClear.len < SIZE {
          made := true;
          ok, f', got := TlsReadAttempt(ssl, tlsToClear, w.tlsRead, w.tlsData, f');
        }
      }
    }

    /** Both writes. */
    method Writes(w: World, f: Flags)
      returns (ok: bool, f': Flags, clearWriteSelect: bool, ghost tw: bool, ghost n1: int, ghost out1: seq<int>,
               ghost cw: bool, ghost n2: int, ghost out2: seq<int>)
      requires Ready() && !f.closed
      modifies ssl, clear, clearToTls, tlsToClear
      ensures tw <==> old(clearToTls.len) != 0 && !inHandshake
      ensures n1 == if tw && w.tlsWrite.Success? then Taken(w.tlsTaken, old(clearToTls.len)) else 0
      ensures cw <==> old(tlsToClear.len) != 0 && !Failed(tw, w.tlsWrite)
      ensures n2 == if cw && w.clearWrite.Moved? then Taken(w.clearTaken, old(tlsToClear.len)) else 0
      ensures ok <==> !(tw && w.tlsWrite.SslFatal?) && !(cw && w.clearWrite.SysFatal?)
      ensures f' == SysFlags(TlsFlags(f, tw, w.tlsWrite), cw, w.clearWrite)
      ensures ok && !f'.closed <==> !Failed(tw, w.tlsWrite) && !Ended(cw, w.clearWrite)
      ensures clearWriteSelect == (cw && w.clearWrite.Again?)
      ensures Linked()
      ensures ok && !f'.closed ==> Ready()
      ensures ok && !f'.closed ==> clearToTls.End() == if n1 == old(clearToTls.len) then 0 else old(clearToTls.End())
      ensures ok && !f'.closed ==> tlsToClear.End() == if n2 == old(tlsToClear.len) then 0 else old(tlsToClear.End())
      ensures tw && w.tlsWrite.ZeroReturn? ==> tlsToClear.len == 0
      ensures cw && (w.clearWrite.Nothing? || w.clearWrite.BrokenPipe?) ==> clearToTls.len == 0
      ensures 0 <= n1 <= old(clearToTls.len) && out1 == old(clearToTls.Pending())[..n1]
      ensures 0 <= n2 <= old(tlsToClear.len) && out2 == old(tlsToClear.Pending())[..n2]
      ensures ssl.output == old(ssl.output) + out1 && clear.input == old(clear.input)
      ensures clear.output == old(clear.output) + out2 && ssl.input == old(ssl.input)
    {
      ghost var p1, p2 := clearToTls.Pending(), tlsToClear.Pending();
      assert 0 <= clearToTls.len && 0 <= tlsToClear.len;
      hide TunnelBuf.Valid, RetryOk;
      clearWriteSelect, cw, n2 := false, false, 0;
      ok, f', tw, n1 := WriteTls(w, f);
      if ok {
        ok, f', clearWriteSelect, cw, n2 := WriteClear(w, f');
      }
      out1, out2 := p1[..n1], p2[..n2];
    }

    /** Both reads. */
    method Reads(w: World, f: Flags)
      returns (ok: bool, f': Flags, clearReadSelect: bool, ghost cr: bool, ghost got1: seq<int>,
               ghost tr: bool, ghost got2: seq<int>)
      requires Ready() && !f.closed && WorldOk(w)
      modifies ssl, clear, clearToTls, tlsToClear, clearToTls.buf, tlsToClear.buf
      ensures cr <==> old(clearToTls.End()) < SIZE
      ensures got1 == if cr && w.clearRead.Moved? then Fit(w.clearData, SIZE - old(clearToTls.End())) else []
      ensures tr <==> !Ended(cr, w.clearRead) && !inHandshake && old(tlsToClear.End()) < SIZE
      ensures got2 == if tr && w.tlsRead.Success? then Fit(w.tlsData, SIZE - old(tlsToClear.End())) else []
      ensures ok <==> !(cr && w.clearRead.SysFatal?) && !(tr && w.tlsRead.SslFatal?)
      ensures f' == TlsFlags(SysFlags(f, cr, w.clearRead), tr, w.tlsRead)
      ensures clearReadSelect == (cr && w.clearRead.Again?)
      ensures Ready() && Linked()
      ensures clear.input == old(clear.input) + got1 && ssl.output == old(ssl.output)
      ensures ssl.input == old(ssl.input) + got2 && clear.output == old(clear.output)
    {
      tr, got2 := false, [];
      ok, f', clearReadSelect, cr, got1 := ReadClear(w, f);
      if ok {
        ok, f', tr, got2 := ReadTls(w, f');
      }
    }

    /** The four attempts.  The ghost results say which ones were made and what they moved. */
    method Attempts(w: World, f: Flags)
      returns (ok: bool, f': Flags, clearReadSelect: bool, clearWriteSelect: bool,
               ghost tw: bool, ghost n1: int, ghost out1: seq<int>, ghost cw: bool, ghost n2: int, ghost out2: seq<int>,
               ghost cr: bool, ghost got1: seq<int>, ghost tr: bool, ghost got2: seq<int>)
      requires Ready() && !f.closed && WorldOk(w)
      modifies ssl, clear, clearToTls, tlsToClear, clearToTls.buf, tlsToClear.buf
      ensures Linked() && (ok && !f'.closed ==> Ready())
      ensures Made(w, inHandshake, old(clearToTls.len), old(clearToTls.End()), old(tlsToClear.len),
                   old(tlsToClear.End()), tw, n1, cw, n2, cr, got1, tr, got2)
      ensures tw && w.tlsWrite.ZeroReturn? ==> tlsToClear.len == 0
      ensures cw && (w.clearWrite.Nothing? || w.clearWrite.BrokenPipe?) ==> clearToTls.len == 0
      ensures 0 <= n1 <= old(clearToTls.len) && out1 == old(clearToTls.Pending())[..n1]
      ensures 0 <= n2 <= old(tlsToClear.len) && out2 == old(tlsToClear.Pending())[..n2]
      ensures ssl.output == old(ssl.output) + out1 && clear.input == old(clear.input) + got1
      ensures clear.output == old(clear.output) + out2 && ssl.input == old(ssl.input) + got2
      ensures ok <==> !(tw && w.tlsWrite.SslFatal?) && !(cw && w.clearWrite.SysFatal?) &&
                      !(cr && w.clearRead.SysFatal?) && !(tr && w.tlsRead.SslFatal?)
      ensures f' == TlsFlags(SysFlags(SysFlags(TlsFlags(f, tw, w.tlsWrite), cw, w.clearWrite), cr, w.clearRead),
                             tr, w.tlsRead)
      ensures clearReadSelect == (cr && w.clearRead.Again?) && clearWriteSelect == (cw && w.clearWrite.Again?)
    {
      hide *;
      clearReadSelect, cr, got1, tr, got2 := false, false, [], false, [];
      ghost var len1, end1, len2, end2 := clearToTls.len, clearToTls.End(), tlsToClear.len, tlsToClear.End();
      ok, f', clearWriteSelect, tw, n1, out1, cw, n2, out2 := Writes(w, f);
      ghost var writing, f0 := ok, f';
      ghost var from1, from2 := clearToTls.End(), tlsToClear.End();
      if ok && !f'.closed {
        ok, f', clearReadSelect, cr, got1, tr, got2 := Reads(w, f');
      }
      AttemptsMade(w, inHandshake, len1, end1, len2, end2, writing, f0, from1, from2,
                   tw, n1, cw, n2, cr, got1, tr, got2);
      FlagsNone(f0, w);
    }

    /** The handshake, if it is not finished.  `ok` is false when the loop is left. */
    method Handshake(w: World) returns (ok: bool, f: Flags)
      modifies `inHandshake
      ensures ok <==> !Failed(old(inHandshake), w.handshake)
      ensures f == TlsFlags(Flags(false, false, false, false), old(inHandshake), w.handshake)
      ensures inHandshake <==> old(inHandshake) && (w.inInit || w.handshake.SslFatal? || w.handshake.ZeroReturn?)
    {
      ok, f := true, Flags(false, false, false, false);
      if inHandshake {
        ok, f := TlsGetError(w.handshake, f);
        if !ok { return; }
        if f.closed { return false, f; }
        if !w.inInit { inHandshake := false; }
      }
    }

    /** One iteration of the loop.  The ghost results say which of the four attempts were
        made and what they moved: `got1` came from the clear-text side and `out1` went to
        the TLS side, `got2` came from the TLS side and `out2` went to the clear-text side. */
    method Iteration(w: World)
      returns (outcome: Outcome,
               ghost tw: bool, ghost n1: int, ghost out1: seq<int>, ghost cw: bool, ghost n2: int, ghost out2: seq<int>,
               ghost cr: bool, ghost got1: seq<int>, ghost tr: bool, ghost got2: seq<int>)
      requires Ready() && WorldOk(w)
      modifies this, ssl, clear, clearToTls, tlsToClear, clearToTls.buf, tlsToClear.buf
      ensures Linked() && (outcome.GoOn? || outcome.Select? ==> Ready())
      ensures inHandshake <==> old(inHandshake) && (w.inInit || w.handshake.SslFatal? || w.handshake.ZeroReturn?)
      ensures if Failed(old(inHandshake), w.handshake)
              then !tw && !cw && !cr && !tr && n1 == n2 == 0 && got1 == got2 == []
              else Made(w, inHandshake, old(clearToTls.len), old(clearToTls.End()), old(tlsToClear.len),
                        old(tlsToClear.End()), tw, n1, cw, n2, cr, got1, tr, got2)
      ensures tw && w.tlsWrite.ZeroReturn? ==> tlsToClear.len == 0
      ensures cw && (w.clearWrite.Nothing? || w.clearWrite.BrokenPipe?) ==> clearToTls.len == 0
      ensures 0 <= n1 <= old(clearToTls.len) && out1 == old(clearToTls.Pending())[..n1]
      ensures 0 <= n2 <= old(tlsToClear.len) && out2 == old(tlsToClear.Pending())[..n2]
      ensures ssl.output == old(ssl.output) + out1 && clear.input == old(clear.input) + got1
      ensures clear.output == old(clear.output) + out2 && ssl.input == old(ssl.input) + got2
      ensures Verdict(w, old(inHandshake), tw, cw, cr, tr, outcome)
    {
      assert 0 <= clearToTls.len && 0 <= tlsToClear.len && Linked();
      assert clearToTls.Pending()[..0] == [] && tlsToClear.Pending()[..0] == [];
      hide *;
      tw, n1, out1, cw, n2, out2 := false, 0, [], false, 0, [];
      cr, got1, tr, got2 := false, [], false, [];
      var ok, f := Handshake(w);
      if !ok {
        outcome := Error;
        HandshakeFailed(w, old(inHandshake));
        return;
      }
      ghost var f0 := f;
      var clearWriteSelect, clearReadSelect;
      ok, f, clearReadSelect, clearWriteSelect, tw, n1, out1, cw, n2, out2, cr, got1, tr, got2 := Attempts(w, f);
      outcome := Finish(w, old(inHandshake), ok, f0, f, clearReadSelect, clearWriteSelect, inHandshake,
                        old(clearToTls.len), old(clearToTls.End()), old(tlsToClear.len), old(tlsToClear.End()),
                        tw, n1, cw, n2, cr, got1, tr, got2);
    }
  }

  /** The whole loop, for any behaviour of the world.  On each side, what was delivered
      is a prefix of what was received on the other one, at any time. */
  method TlsProxy(worlds: seq<World>) returns (t: Tunnel, outcome: Outcome)
    requires forall k :: 0 <= k < |worlds| ==> WorldOk(worlds[k])
    ensures t.Linked() && t.ssl.output <= t.clear.input && t.clear.output <= t.ssl.input
    ensures outcome.GoOn? || outcome.Select? ==>
              && t.clear.input == t.ssl.output + t.clearToTls.Pending()
              && t.ssl.input == t.clear.output + t.tlsToClear.Pending()
    ensures outcome.Select? ==> outcome.clearRead || outcome.tlsRead || outcome.clearWrite || outcome.tlsWrite
  {
    t := new Tunnel();
    outcome := GoOn;
    for k := 0 to |worlds|
      invariant fresh(t) && fresh(t.ssl) && fresh(t.clear) && fresh(t.clearToTls) && fresh(t.tlsToClear)
      invariant fresh(t.clearToTls.buf) && fresh(t.tlsToClear.buf)
      invariant t.Ready() && (outcome.GoOn? || outcome.Select?)
      invariant outcome.Select? ==> outcome.clearRead || outcome.tlsRead || outcome.clearWrite || outcome.tlsWrite
    {
      ghost var tw, n1, out1, cw, n2, out2, cr, got1, tr, got2;
      outcome, tw, n1, out1, cw, n2, out2, cr, got1, tr, got2 := t.Iteration(worlds[k]);
      if outcome.Closed? || outcome.Error? { return; }
    }
  }
}
