/** The PS/2 mouse: a byte-at-a-time interrupt handler and the packet decoder it amounts to. */
module Mice {
  import opened Events
  import opened Bits

  const SCREEN_WIDTH: int := 1024
  const SCREEN_HEIGHT: int := 768

  // ----- Packets -----

  datatype Packet = Packet(flags: Byte, dx: Byte, dy: Byte)

  predicate Has(flags: Byte, bit: nat)
    requires bit < 8
  {
    Test(flags, bit)
  }

  predicate StartsPacket(b: Byte) {
    Has(b, 3)
  }

  function Packets(s: seq<Byte>): seq<Packet> {
    if s == [] then []
    else if !StartsPacket(s[0]) then Packets(s[1..])
    else if |s| < 3 then []
    else [Packet(s[0], s[1], s[2])] + Packets(s[3..])
  }

  /** The bytes at the end of a stream that begin a packet and do not complete it. */
  function Leftover(s: seq<Byte>): (r: seq<Byte>)
    ensures |r| < 3
  {
    if s == [] then []
    else if !StartsPacket(s[0]) then Leftover(s[1..])
    else if |s| < 3 then s
    else Leftover(s[3..])
  }

  /** What one more byte does to a decoded stream. */
  lemma {:induction false} NextByte(s: seq<Byte>, b: Byte)
    ensures |Leftover(s)| == 0 ==>
      Packets(s + [b]) == Packets(s) && Leftover(s + [b]) == if StartsPacket(b) then [b] else []
    ensures |Leftover(s)| == 1 ==> Packets(s + [b]) == Packets(s) && Leftover(s + [b]) == Leftover(s) + [b]
    ensures |Leftover(s)| == 2 ==>
      Packets(s + [b]) == Packets(s) + [Packet(Leftover(s)[0], Leftover(s)[1], b)] && Leftover(s + [b]) == []
  {
    if s != [] {
      if !StartsPacket(s[0]) {
        NextByte(s[1..], b);
        assert (s + [b])[1..] == s[1..] + [b];
      } else if |s| >= 3 {
        NextByte(s[3..], b);
        assert (s + [b])[3..] == s[3..] + [b];
      }
    }
  }

  /** A packet as a device sends it, after bytes that cannot start one. */
  datatype Frame = Frame(noise: seq<Byte>, packet: Packet)

  ghost predicate Noise(s: seq<Byte>) {
    forall i :: 0 <= i < |s| ==> !StartsPacket(s[i])
  }

  ghost predicate Sendable(f: Frame) {
    Noise(f.noise) && StartsPacket(f.packet.flags)
  }

  ghost predicate AllSendable(fs: seq<Frame>) {
    forall i :: 0 <= i < |fs| ==> Sendable(fs[i])
  }

  function Sent(fs: seq<Frame>): seq<Byte> {
    if fs == [] then []
    else fs[0].noise + [fs[0].packet.flags, fs[0].packet.dx, fs[0].packet.dy] + Sent(fs[1..])
  }

  function Carried(fs: seq<Frame>): seq<Packet> {
    seq(|fs|, i requires 0 <= i < |fs| => fs[i].packet)
  }

  /** Noise before a packet is skipped. */
  lemma {:induction false} SkipNoise(noise: seq<Byte>, s: seq<Byte>)
    requires Noise(noise)
    ensures Packets(noise + s) == Packets(s) && Leftover(noise + s) == Leftover(s)
  {
    if noise == [] {
      assert noise + s == s;
    } else {
      assert !StartsPacket((noise + s)[0]);
      SkipNoise(noise[1..], s);
      assert (noise + s)[1..] == noise[1..] + s;
    }
  }

  lemma SentFirst(f: Frame, fs: seq<Frame>)
    ensures Sent([f] + fs) == f.noise + [f.packet.flags, f.packet.dx, f.packet.dy] + Sent(fs)
    ensures Carried([f] + fs) == [f.packet] + Carried(fs)
    ensures Sendable(f) && AllSendable(fs) ==> AllSendable([f] + fs)
  {
    assert ([f] + fs)[1..] == fs;
  }

  /** Decoding undoes sending, whatever noise separates the packets. */
  lemma {:induction false} DecodesWhatIsSent(fs: seq<Frame>, tail: seq<Byte>)
    requires AllSendable(fs)
    ensures Packets(Sent(fs) + tail) == Carried(fs) + Packets(tail)
    ensures Leftover(Sent(fs) + tail) == Leftover(tail)
  {
    if fs == [] {
      assert Sent(fs) + tail == tail;
      assert Carried(fs) + Packets(tail) == Packets(tail);
    } else {
      var p := fs[0].packet;
      assert Sendable(fs[0]);
      var rest := [p.flags, p.dx, p.dy] + (Sent(fs[1..]) + tail);
      assert Sent(fs) + tail == fs[0].noise + rest;
      SkipNoise(fs[0].noise, rest);
      assert rest[3..] == Sent(fs[1..]) + tail;
      DecodesWhatIsSent(fs[1..], tail);
      assert Carried(fs) == [p] + Carried(fs[1..]);
    }
  }

  /** A stream is these frames, noise and the beginning of a packet. */
  ghost predicate Framed(s: seq<Byte>, fs: seq<Frame>, noise: seq<Byte>) {
    && Noise(noise) && AllSendable(fs)
    && s == Sent(fs) + (noise + Leftover(s)) && Packets(s) == Carried(fs)
  }

  /** Every stream whatever is packets sent, noise, and a packet begun: nothing else is ever lost. */
  lemma {:induction false} EveryStreamIsFrames(s: seq<Byte>) returns (fs: seq<Frame>, noise: seq<Byte>)
    ensures Framed(s, fs, noise)
  {
    if s == [] || (StartsPacket(s[0]) && |s| < 3) {
      fs, noise := [], [];
    } else if StartsPacket(s[0]) {
      fs, noise := EveryStreamIsFrames(s[3..]);
      fs := OneMoreFrame(s, fs, noise);
    } else {
      fs, noise := EveryStreamIsFrames(s[1..]);
      fs, noise := MoreNoise(s[0], fs, noise, Leftover(s));
      assert s == [s[0]] + s[1..];
    }
  }

  lemma OneMoreFrame(s: seq<Byte>, fs: seq<Frame>, noise: seq<Byte>) returns (fs': seq<Frame>)
    requires |s| >= 3 && StartsPacket(s[0]) && Framed(s[3..], fs, noise)
    ensures Framed(s, fs', noise)
  {
    var f := Frame([], Packet(s[0], s[1], s[2]));
    SentFirst(f, fs);
    fs' := [f] + fs;
    assert s == [s[0], s[1], s[2]] + s[3..];
  }

  /** A noise byte in front joins the noise of the first frame, or the last noise when there is no frame. */
  lemma MoreNoise(b: Byte, fs: seq<Frame>, noise: seq<Byte>, tail: seq<Byte>)
    returns (fs': seq<Frame>, noise': seq<Byte>)
    requires !StartsPacket(b) && AllSendable(fs) && Noise(noise)
    ensures AllSendable(fs') && Noise(noise') && Carried(fs') == Carried(fs)
    ensures Sent(fs') + (noise' + tail) == [b] + (Sent(fs) + (noise + tail))
  {
    if fs == [] {
      fs', noise' := [], [b] + noise;
    } else {
      var f := Frame([b] + fs[0].noise, fs[0].packet);
      assert Sendable(fs[0]);
      fs', noise' := [f] + fs[1..], noise;
      SentFirst(f, fs[1..]);
      SentFirst(fs[0], fs[1..]);
      assert [fs[0]] + fs[1..] == fs;
      assert Sent(fs') == [b] + Sent(fs);
    }
  }

  // ----- What packets mean -----

  /** A nine-bit two's complement number; an overflowed one is taken as zero. */
  function Delta(low: Byte, negative: bool, overflow: bool): (d: int)
    ensures -256 <= d < 256
  {
    if overflow then 0 else if negative then low - 256 else low
  }

  function MoveX(p: Packet): int {
    Delta(p.dx, Has(p.flags, 4), Has(p.flags, 6))
  }

  function MoveY(p: Packet): int {
    Delta(p.dy, Has(p.flags, 5), Has(p.flags, 7))
  }

  function Clamp(v: int, limit: int): (r: int)
    requires limit > 0
    ensures 0 <= r < limit
    ensures r == v || (v < r == 0) || (v > r == limit - 1)
  {
    if v < 0 then 0 else if v >= limit then limit - 1 else v
  }

  predicate Down(p: Packet, button: nat)
    requires button < 3
  {
    Has(p.flags, button)
  }

  datatype Pointer = Pointer(x: int, y: int)

  const MIDDLE := Pointer(SCREEN_WIDTH / 2, SCREEN_HEIGHT / 2)

  ghost predicate OnScreen(at: Pointer) {
    0 <= at.x < SCREEN_WIDTH && 0 <= at.y < SCREEN_HEIGHT
  }

  /** Where the pointer is after packets; up the screen is towards smaller y. */
  function PositionAfter(ps: seq<Packet>): (at: Pointer)
    ensures OnScreen(at)
  {
    if ps == [] then MIDDLE
    else
      var p, before := ps[|ps| - 1], PositionAfter(ps[..|ps| - 1]);
      Pointer(Clamp(before.x + MoveX(p), SCREEN_WIDTH), Clamp(before.y - MoveY(p), SCREEN_HEIGHT))
  }

  /** A button is held after packets when the last one says so. */
  predicate Held(ps: seq<Packet>, button: nat)
    requires button < 3
  {
    ps != [] && Down(ps[|ps| - 1], button)
  }

  /** Packet i presses a button: it is down and was not down before. */
  predicate Presses(ps: seq<Packet>, i: nat, button: nat)
    requires i < |ps| && button < 3
  {
    Down(ps[i], button) && !(i > 0 && Down(ps[i - 1], button))
  }

  function Click(ps: seq<Packet>, button: nat): seq<Event>
    requires ps != [] && button < 3
  {
    var at := PositionAfter(ps);
    if Presses(ps, |ps| - 1, button) then [MouseClick(at.x, at.y, button)] else []
  }

  function Motion(ps: seq<Packet>): seq<Event>
    requires ps != []
  {
    var p, at := ps[|ps| - 1], PositionAfter(ps);
    if MoveX(p) != 0 || MoveY(p) != 0 then [MouseMove(at.x, at.y, Down(p, 0), Down(p, 1))] else []
  }

  lemma ClickWhenHeld(ps: seq<Packet>, button: nat)
    requires ps != [] && button < 3
    ensures var n, at := |ps| - 1, PositionAfter(ps);
      Click(ps, button) ==
      if Down(ps[n], button) && !Held(ps[..n], button) then [MouseClick(at.x, at.y, button)] else []
  {}

  /** The events of the last packet. */
  function LastEvents(ps: seq<Packet>): seq<Event>
    requires ps != []
  {
    Click(ps, 0) + Click(ps, 1) + Click(ps, 2) + Motion(ps)
  }

  function EventsOf(ps: seq<Packet>): seq<Event> {
    if ps == [] then [] else EventsOf(ps[..|ps| - 1]) + LastEvents(ps)
  }

  // ----- What the bits of a packet say -----

  /** The bits of the first byte: buttons 0 to 2, a set bit 3, the signs in 4 and 5, the overflows in 6 and 7;
      a movement is the second or third byte less 256 when its sign is set, and nothing when it overflowed. */
  lemma BitsAre(p: Packet)
    ensures Down(p, 0) <==> p.flags % 2 == 1
    ensures Down(p, 1) <==> p.flags / 2 % 2 == 1
    ensures Down(p, 2) <==> p.flags / 4 % 2 == 1
    ensures StartsPacket(p.flags) <==> p.flags / 8 % 2 == 1
    ensures MoveX(p) == if p.flags / 64 % 2 == 1 then 0 else p.dx - 256 * (p.flags / 16 % 2)
    ensures MoveY(p) == if p.flags / 128 % 2 == 1 then 0 else p.dy - 256 * (p.flags / 32 % 2)
  {
    LowestBits(p.flags);
    NextBits(p.flags);
  }

  /** The pointer starts in the middle of the screen, moves right by x and up by y, and stops at the edges. */
  lemma PointerMoves(ps: seq<Packet>, p: Packet)
    ensures PositionAfter([]) == Pointer(512, 384)
    ensures var x := PositionAfter(ps).x + MoveX(p);
      PositionAfter(ps + [p]).x == if x < 0 then 0 else if x > 1023 then 1023 else x
    ensures var y := PositionAfter(ps).y - MoveY(p);
      PositionAfter(ps + [p]).y == if y < 0 then 0 else if y > 767 then 767 else y
  {
    assert (ps + [p])[..|ps|] == ps;
  }

  /** The events of a packet: a click for each button it presses, left (0), right (1), middle (2) in this order,
      then a move if it moved, all at the position after it, the move with the left and right buttons. */
  lemma EventsAre(ps: seq<Packet>)
    requires ps != []
    ensures var n, at, p := |ps| - 1, PositionAfter(ps), ps[|ps| - 1];
      LastEvents(ps) ==
        (if Presses(ps, n, 0) then [MouseClick(at.x, at.y, 0)] else [])
        + (if Presses(ps, n, 1) then [MouseClick(at.x, at.y, 1)] else [])
        + (if Presses(ps, n, 2) then [MouseClick(at.x, at.y, 2)] else [])
        + (if MoveX(p) != 0 || MoveY(p) != 0 then [MouseMove(at.x, at.y, Down(p, 0), Down(p, 1))] else [])
  {}

  // ----- Clicks are presses -----

  function IsClick(e: Event, button: nat): bool {
    e.MouseClick? && e.button == button
  }

  function Clicks(es: seq<Event>, button: nat): nat {
    if es == [] then 0 else Clicks(es[..|es| - 1], button) + if IsClick(es[|es| - 1], button) then 1 else 0
  }

  ghost function PressesOf(ps: seq<Packet>, button: nat): set<nat>
    requires button < 3
  {
    set i: nat | i < |ps| && Presses(ps, i, button)
  }

  lemma {:induction false} ClicksAdd(a: seq<Event>, b: seq<Event>, button: nat)
    ensures Clicks(a + b, button) == Clicks(a, button) + Clicks(b, button)
  {
    if b == [] {
      assert a + b == a;
    } else {
      ClicksAdd(a, b[..|b| - 1], button);
      assert (a + b)[..|a + b| - 1] == a + b[..|b| - 1];
    }
  }

  lemma OwnClicks(ps: seq<Packet>, b: nat, button: nat)
    requires ps != [] && b < 3 && button < 3
    ensures Clicks(Click(ps, b), button) == if b == button && Presses(ps, |ps| - 1, button) then 1 else 0
    ensures Clicks(Motion(ps), button) == 0
  {}

  lemma LastClicks(ps: seq<Packet>, button: nat)
    requires ps != [] && button < 3
    ensures Clicks(LastEvents(ps), button) == if Presses(ps, |ps| - 1, button) then 1 else 0
  {
    var a, b, c, d := Click(ps, 0), Click(ps, 1), Click(ps, 2), Motion(ps);
    ClicksAdd(a + b + c, d, button);
    ClicksAdd(a + b, c, button);
    ClicksAdd(a, b, button);
    OwnClicks(ps, 0, button);
    OwnClicks(ps, 1, button);
    OwnClicks(ps, 2, button);
  }

  lemma PressesGrow(ps: seq<Packet>, button: nat)
    requires ps != [] && button < 3
    ensures var n := |ps| - 1;
      |PressesOf(ps, button)| == |PressesOf(ps[..n], button)| + if Presses(ps, n, button) then 1 else 0
  {
    var n := |ps| - 1;
    forall i: nat | i < n
      ensures Presses(ps, i, button) <==> Presses(ps[..n], i, button)
    {
      assert ps[..n][i] == ps[i];
    }
    var older := PressesOf(ps[..n], button);
    assert PressesOf(ps, button) == if Presses(ps, n, button) then older + {n} else older;
  }

  /** Every press of a button gives one click, and nothing else does. */
  lemma {:induction false} ClicksArePresses(ps: seq<Packet>, button: nat)
    requires button < 3
    ensures Clicks(EventsOf(ps), button) == |PressesOf(ps, button)|
  {
    if ps == [] {
      assert PressesOf(ps, button) == {};
    } else {
      var n := |ps| - 1;
      ClicksArePresses(ps[..n], button);
      ClicksAdd(EventsOf(ps[..n]), LastEvents(ps), button);
      LastClicks(ps, button);
      PressesGrow(ps, button);
    }
  }

  /** Clicks and moves are reported on the screen. */
  lemma {:induction false} EventsOnScreen(ps: seq<Packet>)
    ensures forall e :: e in EventsOf(ps) ==>
      (e.MouseClick? || e.MouseMove?) && OnScreen(Pointer(e.x, e.y))
  {
    if ps != [] {
      EventsOnScreen(ps[..|ps| - 1]);
      assert forall e :: e in LastEvents(ps) ==>
        e in Click(ps, 0) || e in Click(ps, 1) || e in Click(ps, 2) || e in Motion(ps);
    }
  }

  // ----- One more byte -----

  /** The events of the packet that a longer stream completes. */
  ghost function Completed(before: seq<Byte>, after: seq<Byte>): seq<Event> {
    if |Packets(before)| < |Packets(after)| then LastEvents(Packets(after)) else []
  }

  /** What one more byte means for the events. */
  lemma ByteCompletes(s: seq<Byte>, b: Byte)
    ensures EventsOf(Packets(s + [b])) == EventsOf(Packets(s)) + Completed(s, s + [b])
    ensures |Leftover(s)| < 2 ==> Packets(s + [b]) == Packets(s) && Completed(s, s + [b]) == []
    ensures |Leftover(s)| == 2 ==>
      var ps, p := Packets(s + [b]), Packet(Leftover(s)[0], Leftover(s)[1], b);
      && ps != [] && ps[..|ps| - 1] == Packets(s) && ps[|ps| - 1] == p && Completed(s, s + [b]) == LastEvents(ps)
  {
    NextByte(s, b);
  }

  // ----- The interrupt handler -----

  class Mouse {
    const queue: EventQueue
    const bytes: array<Byte>
    const buttons: array<bool>
    var x: int
    var y: int
    var cycle: nat
    ghost var stream: seq<Byte>     // every byte accepted from the mouse

    ghost predicate Valid()
      reads this, bytes, buttons, queue, queue.ring
    {
      && queue.Valid() && bytes.Length == 3 && buttons.Length == 3
      && cycle == |Leftover(stream)| && bytes[..cycle] == Leftover(stream)
      && Pointer(x, y) == PositionAfter(Packets(stream))
      && forall b :: 0 <= b < 3 ==> buttons[b] == Held(Packets(stream), b)
    }

    constructor (events: EventQueue)
      requires events.Valid()
      ensures Valid() && queue == events && stream == [] && fresh(bytes) && fresh(buttons)
    {
      queue := events;
      bytes := new Byte[3](_ => 0);
      buttons := new bool[3](_ => false);
      x, y, cycle := SCREEN_WIDTH / 2, SCREEN_HEIGHT / 2, 0;
      stream := [];
    }

    /** One interrupt: the byte joins the stream when the status register says it is the mouse's, and the
        events it completes join the queue. */
    method Callback(status: Byte, data: Byte)
      requires Valid()
      modifies this, bytes, buttons, queue, queue.ring
      ensures Valid() && stream == if Has(status, 5) then old(stream) + [data] else old(stream)
      ensures EventsOf(Packets(stream)) == EventsOf(Packets(old(stream))) + Completed(old(stream), stream)
      ensures queue.history == old(queue.history) + Completed(old(stream), stream)
      ensures queue.Contents() == PushedAll(old(queue.Contents()), Completed(old(stream), stream))
    {
      if !Has(status, 5) {
        return;
      }
      ByteCompletes(stream, data);
      if cycle < 2 {
        StartPacket(data);
      } else {
        FinishPacket(data);
      }
    }

    /** Cases 0 and 1: a byte that completes no packet. */
    method StartPacket(data: Byte)
      requires Valid() && cycle < 2
      modifies this`cycle, this`stream, bytes
      ensures Valid() && stream == old(stream) + [data] && Packets(stream) == Packets(old(stream))
    {
      NextByte(stream, data);
      stream := stream + [data];
      if cycle == 0 {
        bytes[0] := data;
        if Has(data, 3) {
          cycle := 1;
        }
      } else {
        bytes[1] := data;
        cycle := 2;
      }
    }

    /** Case 2: the third byte of a packet. */
    method FinishPacket(data: Byte)
      requires Valid() && cycle == 2
      modifies this, bytes, buttons, queue, queue.ring
      ensures Valid() && stream == old(stream) + [data] && Packets(stream) != []
      ensures queue.history == old(queue.history) + LastEvents(Packets(stream))
      ensures queue.Contents() == PushedAll(old(queue.Contents()), LastEvents(Packets(stream)))
    {
      NextByte(stream, data);
      ByteCompletes(stream, data);
      stream := stream + [data];
      bytes[2] := data;
      cycle := 0;
      Process(Packets(stream));
    }

    /** Acts on the packet in the buffer, the last of ps. */
    method Process(ghost ps: seq<Packet>)
      requires queue.Valid() && bytes.Length == 3 && buttons.Length == 3
      requires ps != [] && ps[|ps| - 1] == Packet(bytes[0], bytes[1], bytes[2])
      requires Pointer(x, y) == PositionAfter(ps[..|ps| - 1])
      requires forall b :: 0 <= b < 3 ==> buttons[b] == Held(ps[..|ps| - 1], b)
      modifies this`x, this`y, buttons, queue, queue.ring
      ensures queue.Valid() && Pointer(x, y) == PositionAfter(ps)
      ensures forall b :: 0 <= b < 3 ==> buttons[b] == Held(ps, b)
      ensures queue.history == old(queue.history) + LastEvents(ps)
      ensures queue.Contents() == PushedAll(old(queue.Contents()), LastEvents(ps))
    {
      var dx: int, dy: int := bytes[1], bytes[2];
      if Has(bytes[0], 4) {
        dx := dx - 256;
      }
      if Has(bytes[0], 5) {
        dy := dy - 256;
      }
      if Has(bytes[0], 6) {
        dx := 0;
      }
      if Has(bytes[0], 7) {
        dy := 0;
      }
      x, y := x + dx, y - dy;
      if x < 0 {
        x := 0;
      }
      if x >= SCREEN_WIDTH {
        x := SCREEN_WIDTH - 1;
      }
      if y < 0 {
        y := 0;
      }
      if y >= SCREEN_HEIGHT {
        y := SCREEN_HEIGHT - 1;
      }
      ReportPacket(ps, dx, dy);
    }

    /** Clicks for buttons newly down, then the move. */
    method ReportPacket(ghost ps: seq<Packet>, dx: int, dy: int)
      requires queue.Valid() && bytes.Length == 3 && buttons.Length == 3
      requires ps != [] && ps[|ps| - 1] == Packet(bytes[0], bytes[1], bytes[2])
      requires Pointer(x, y) == PositionAfter(ps) && dx == MoveX(ps[|ps| - 1]) && dy == MoveY(ps[|ps| - 1])
      requires forall b :: 0 <= b < 3 ==> buttons[b] == Held(ps[..|ps| - 1], b)
      modifies buttons, queue, queue.ring
      ensures queue.Valid()
      ensures forall b :: 0 <= b < 3 ==> buttons[b] == Held(ps, b)
      ensures queue.history == old(queue.history) + LastEvents(ps)
      ensures queue.Contents() == PushedAll(old(queue.Contents()), LastEvents(ps))
    {
      ghost var h, q, clicks := queue.history, queue.Contents(), [] + Click(ps, 0) + Click(ps, 1) + Click(ps, 2);
      assert h + [] == h;
      ReportClicks(ps, h, q);
      SetButtons(ps);
      ReportMotion(ps, dx, dy, h, q, clicks);
      assert clicks + Motion(ps) == LastEvents(ps);
    }

    method ReportClicks(ghost ps: seq<Packet>, ghost h: seq<Event>, ghost q: seq<Event>)
      requires queue.Valid() && bytes.Length == 3 && buttons.Length == 3
      requires ps != [] && ps[|ps| - 1] == Packet(bytes[0], bytes[1], bytes[2])
      requires Pointer(x, y) == PositionAfter(ps)
      requires forall b :: 0 <= b < 3 ==> buttons[b] == Held(ps[..|ps| - 1], b)
      requires Reported(h, q, [])
      modifies queue, queue.ring
      ensures queue.Valid() && Reported(h, q, [] + Click(ps, 0) + Click(ps, 1) + Click(ps, 2))
    {
      ghost var a, b, c := Click(ps, 0), Click(ps, 1), Click(ps, 2);
      ClickWhenHeld(ps, 0);
      ClickWhenHeld(ps, 1);
      ClickWhenHeld(ps, 2);
      PushIf(Has(bytes[0], 0) && !buttons[0], MouseClick(x, y, 0), h, q, [], a);
      PushIf(Has(bytes[0], 1) && !buttons[1], MouseClick(x, y, 1), h, q, [] + a, b);
      PushIf(Has(bytes[0], 2) && !buttons[2], MouseClick(x, y, 2), h, q, [] + a + b, c);
    }

    method ReportMotion(ghost ps: seq<Packet>, dx: int, dy: int,
                        ghost h: seq<Event>, ghost q: seq<Event>, ghost done: seq<Event>)
      requires queue.Valid() && buttons.Length == 3 && Reported(h, q, done)
      requires ps != [] && Pointer(x, y) == PositionAfter(ps)
      requires dx == MoveX(ps[|ps| - 1]) && dy == MoveY(ps[|ps| - 1])
      requires forall b :: 0 <= b < 3 ==> buttons[b] == Held(ps, b)
      modifies queue, queue.ring
      ensures queue.Valid() && Reported(h, q, done + Motion(ps))
    {
      PushIf(dx != 0 || dy != 0, MouseMove(x, y, buttons[0], buttons[1]), h, q, done, Motion(ps));
    }

    method SetButtons(ghost ps: seq<Packet>)
      requires bytes.Length == 3 && buttons.Length == 3
      requires ps != [] && ps[|ps| - 1] == Packet(bytes[0], bytes[1], bytes[2])
      modifies buttons
      ensures forall b :: 0 <= b < 3 ==> buttons[b] == Held(ps, b)
    {
      buttons[0] := Has(bytes[0], 0);
      buttons[1] := Has(bytes[0], 1);
      buttons[2] := Has(bytes[0], 2);
    }

    ghost predicate Reported(h: seq<Event>, q: seq<Event>, es: seq<Event>)
      requires queue.Valid()
      reads queue, queue.ring
    {
      queue.history == h + es && queue.Contents() == PushedAll(q, es)
    }

    method PushIf(wanted: bool, e: Event,
                  ghost h: seq<Event>, ghost q: seq<Event>, ghost done: seq<Event>, ghost es: seq<Event>)
      requires queue.Valid() && Reported(h, q, done) && es == if wanted then [e] else []
      modifies queue, queue.ring
      ensures queue.Valid() && Reported(h, q, done + es)
    {
      if wanted {
        queue.Push(e);
        PushedTwice(q, done, es);
      } else {
        assert done + es == done;
      }
    }

    method GetPosition() returns (atX: int, atY: int)
      requires Valid()
      ensures Pointer(atX, atY) == PositionAfter(Packets(stream))
      ensures 0 <= atX < SCREEN_WIDTH && 0 <= atY < SCREEN_HEIGHT
    {
      atX, atY := x, y;
    }

    method ButtonPressed(button: int) returns (pressed: bool)
      requires Valid()
      ensures pressed <==> 0 <= button < 3 && Held(Packets(stream), button)
    {
      pressed := false;
      if button >= 0 && button < 3 {
        pressed := buttons[button];
      }
    }
  }
}
