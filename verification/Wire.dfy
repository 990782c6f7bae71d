/**
 What client and server write to their socket: a request is its id, the two lengths and the
 two parts of its data; a message is a record of fixed size whose first field is the window.
 Both run on one machine, so integers have one byte order (little-endian here).
 */
module Wire {
  import opened Common

  type byte = x: nat | x < 256
  type bytes = seq<byte>

  function Power(n: nat): (p: nat)
    ensures p > 0
  {
    if n == 0 then 1 else 256 * Power(n - 1)
  }

  function PutInt(x: nat, width: nat): (r: bytes)
    ensures |r| == width
  {
    if width == 0 then [] else [x % 256] + PutInt(x / 256, width - 1)
  }

  function GetInt(b: bytes): (x: nat)
  {
    if b == [] then 0 else b[0] + 256 * GetInt(b[1..])
  }

  lemma {:induction false} IntRoundTrip(x: nat, width: nat)
    requires x < Power(width)
    ensures GetInt(PutInt(x, width)) == x
  {
    if width > 0 {
      IntRoundTrip(x / 256, width - 1);
      assert PutInt(x, width)[1..] == PutInt(x / 256, width - 1);
    }
  }

  const INT := 4         // sizeof (int)
  const SIZE := 8        // sizeof (size_t), and of every field of a message

  // ---- requests ------------------------------------------------------------------------

  // `want` is the length of the result that the caller waits for, 0 for none.
  datatype Request = Request(id: nat, data: bytes, ex: bytes, want: nat)

  predicate Fits(r: Request) {
    r.id < Power(INT) && |r.data| < Power(SIZE) && |r.ex| < Power(SIZE)
  }

  function PutHead(r: Request): (h: bytes)
    ensures |h| == HEAD
  {
    PutInt(r.id, INT) + PutInt(|r.data|, SIZE) + PutInt(|r.ex|, SIZE)
  }

  function PutRequest(r: Request): bytes {
    PutHead(r) + (r.data + r.ex)
  }

  // What the handler is given: the request id and the data followed by the extra data.
  datatype Served = Served(id: nat, payload: bytes)

  function Received(r: Request): Served {
    Served(r.id, r.data + r.ex)
  }

  const HEAD := INT + SIZE + SIZE

  // The first request of the stream and the rest; none while it is not complete.
  function TakeRequest(b: bytes): (r: Option<(Served, bytes)>)
  {
    if |b| < HEAD then None
    else
      var id := GetInt(b[..INT]);
      var len := GetInt(b[INT..INT + SIZE]) + GetInt(b[INT + SIZE..HEAD]);
      if |b| < HEAD + len then None
      else Some((Served(id, b[HEAD..HEAD + len]), b[HEAD + len..]))
  }

  lemma HeadRoundTrip(r: Request, rest: bytes)
    requires Fits(r)
    ensures var b := PutHead(r) + rest;
      && GetInt(b[..INT]) == r.id
      && GetInt(b[INT..INT + SIZE]) == |r.data| && GetInt(b[INT + SIZE..HEAD]) == |r.ex|
  {
    var b := PutHead(r) + rest;
    assert b[..INT] == PutInt(r.id, INT);
    assert b[INT..INT + SIZE] == PutInt(|r.data|, SIZE);
    assert b[INT + SIZE..HEAD] == PutInt(|r.ex|, SIZE);
    IntRoundTrip(r.id, INT);
    IntRoundTrip(|r.data|, SIZE);
    IntRoundTrip(|r.ex|, SIZE);
  }

  lemma Cut(h: bytes, p: bytes, t: bytes)
    ensures (h + p + t)[|h|..|h| + |p|] == p && (h + p + t)[|h| + |p|..] == t
  {
  }

  // The server takes off a stream exactly what the client put there, whatever follows.
  lemma RequestRoundTrip(r: Request, rest: bytes)
    requires Fits(r)
    ensures TakeRequest(PutRequest(r) + rest) == Some((Received(r), rest))
  {
    hide PutHead;
    var payload := r.data + r.ex;
    HeadRoundTrip(r, payload + rest);
    assert PutRequest(r) + rest == PutHead(r) + (payload + rest) == PutHead(r) + payload + rest;
    Cut(PutHead(r), payload, rest);
  }

  // No proper prefix of a request is taken for a whole one.
  lemma NoEarlyRequest(r: Request, n: nat)
    requires Fits(r) && n < |PutRequest(r)|
    ensures TakeRequest(PutRequest(r)[..n]) == None
  {
    hide PutHead;
    if n >= HEAD {
      var rest := (r.data + r.ex)[..n - HEAD];
      assert PutRequest(r)[..n] == PutHead(r) + rest;
      HeadRoundTrip(r, rest);
    }
  }

  // ---- messages ------------------------------------------------------------------------

  // `syncMsg` is the pointer to the sender's node that a message has with virtual windows.
  datatype WireMsg = WireMsg(hwnd: nat, message: nat, wParam: nat, lParam: nat, time: nat, syncMsg: nat)

  const MSG_SIZE := 6 * SIZE

  predicate MsgFits(m: WireMsg) {
    && m.hwnd < Power(SIZE) && m.message < Power(SIZE) && m.wParam < Power(SIZE)
    && m.lParam < Power(SIZE) && m.time < Power(SIZE) && m.syncMsg < Power(SIZE)
  }

  function PutMsg(m: WireMsg): (r: bytes)
    ensures |r| == MSG_SIZE
  {
    PutInt(m.hwnd, SIZE) + PutInt(m.message, SIZE) + PutInt(m.wParam, SIZE)
    + PutInt(m.lParam, SIZE) + PutInt(m.time, SIZE) + PutInt(m.syncMsg, SIZE)
  }

  function GetMsg(b: bytes): WireMsg
    requires |b| == MSG_SIZE
  {
    WireMsg(GetInt(b[..SIZE]), GetInt(b[SIZE..2 * SIZE]), GetInt(b[2 * SIZE..3 * SIZE]),
            GetInt(b[3 * SIZE..4 * SIZE]), GetInt(b[4 * SIZE..5 * SIZE]), GetInt(b[5 * SIZE..]))
  }

  lemma MsgRoundTrip(m: WireMsg)
    requires MsgFits(m)
    ensures GetMsg(PutMsg(m)) == m
  {
    var b := PutMsg(m);
    assert b[..SIZE] == PutInt(m.hwnd, SIZE);
    assert b[SIZE..2 * SIZE] == PutInt(m.message, SIZE);
    assert b[2 * SIZE..3 * SIZE] == PutInt(m.wParam, SIZE);
    assert b[3 * SIZE..4 * SIZE] == PutInt(m.lParam, SIZE);
    assert b[4 * SIZE..5 * SIZE] == PutInt(m.time, SIZE);
    assert b[5 * SIZE..] == PutInt(m.syncMsg, SIZE);
    IntRoundTrip(m.hwnd, SIZE);
    IntRoundTrip(m.message, SIZE);
    IntRoundTrip(m.wParam, SIZE);
    IntRoundTrip(m.lParam, SIZE);
    IntRoundTrip(m.time, SIZE);
    IntRoundTrip(m.syncMsg, SIZE);
  }
}
