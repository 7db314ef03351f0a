/** The keyboard driver's ring buffer and modifier flags, changed in place, proved against
    `KeyboardSpec`. */
module KeyboardDriver {
  import opened Common
  import KS = KeyboardSpec

  /** The position `i` places after `tail` in the ring. */
  function At(tail: nat, i: nat): (k: nat)
    requires tail < KS.RING_SIZE && i <= KS.RING_SIZE
    ensures k < KS.RING_SIZE
  {
    if tail + i < KS.RING_SIZE then tail + i else tail + i - KS.RING_SIZE
  }

  function Length(head: nat, tail: nat): (n: nat)
    requires head < KS.RING_SIZE && tail < KS.RING_SIZE
    ensures n <= KS.CAPACITY && At(tail, n) == head
  {
    if head >= tail then head - tail else head + KS.RING_SIZE - tail
  }

  /** What the ring holds, oldest first. */
  function Contents(ring: seq<nat>, head: nat, tail: nat): seq<nat>
    requires |ring| == KS.RING_SIZE && head < KS.RING_SIZE && tail < KS.RING_SIZE
  {
    seq(Length(head, tail), i requires 0 <= i < Length(head, tail) => ring[At(tail, i)])
  }

  function After(i: nat): nat {
    (i + 1) % KS.RING_SIZE
  }

  lemma PushContents(ring: seq<nat>, head: nat, tail: nat, b: nat)
    requires |ring| == KS.RING_SIZE && head < KS.RING_SIZE && tail < KS.RING_SIZE
    ensures var tail' := if After(head) == tail then After(tail) else tail;
      Contents(ring[head := b], After(head), tail') == KS.Push(Contents(ring, head, tail), b)
  {
  }

  lemma TakeContents(ring: seq<nat>, head: nat, tail: nat)
    requires |ring| == KS.RING_SIZE && head < KS.RING_SIZE && tail < KS.RING_SIZE && head != tail
    ensures var q := Contents(ring, head, tail);
      q != [] && q[0] == ring[tail] && Contents(ring, head, After(tail)) == q[1..]
  {
  }

  class KeyboardDriver {
    const buffer: array<nat>
    var head: nat
    var tail: nat
    var shift: bool
    var ctrl: bool
    var alt: bool

    ghost var history: KS.Keyboard

    /** The ring holds the queue. */
    ghost predicate Valid()
      reads this, buffer
    {
      && buffer.Length == KS.RING_SIZE && head < KS.RING_SIZE && tail < KS.RING_SIZE
      && history.queue == Contents(buffer[..], head, tail)
      && history.mods == KS.Mods(shift, ctrl, alt)
    }

    constructor ()
      ensures Valid() && fresh(buffer) && history == KS.START
    {
      buffer := new nat[KS.RING_SIZE](_ => 0);
      head, tail, shift, ctrl, alt := 0, 0, false, false, false;
      history := KS.START;
    }

    /** A byte into the ring; when it is full, the oldest one goes. */
    method Push(b: nat)
      requires Valid()
      modifies this`head, this`tail, this`history, buffer
      ensures Valid() && history == KS.Add(old(history), b)
    {
      hide Contents, KS.Push;
      PushContents(buffer[..], head, tail, b);
      buffer[head] := b;
      head := (head + 1) % KS.RING_SIZE;
      if head == tail {
        tail := (tail + 1) % KS.RING_SIZE;
      }
      history := KS.Add(history, b);
      assert buffer[..] == old(buffer[..])[old(head) := b];
    }

    /** The read branch of `keyboard_driver_handle_message`. */
    method Read() returns (b: Option<nat>)
      requires Valid()
      modifies this`tail, this`history
      ensures Valid() && history == KS.Take(old(history))
      ensures b == if old(history).queue == [] then None else Some(old(history).queue[0])
    {
      hide Contents;
      if head != tail {
        TakeContents(buffer[..], head, tail);
        b := Some(buffer[tail]);
        tail := (tail + 1) % KS.RING_SIZE;
        history := KS.Take(history);
      } else {
        NoContents(buffer[..], head);
        b := None;
      }
    }

    /** `keyboard_handle_scancode`. */
    method HandleScancode(scancode: nat)
      requires Valid() && scancode < 256
      modifies this, buffer
      ensures Valid() && history == KS.Next(old(history), KS.Scancode(scancode))
    {
      hide Contents, KS.Ascii, KS.Add;
      history := history.(mods := KS.ModsAfter(history.mods, scancode));
      if scancode >= KS.RELEASE {
        var key := scancode - KS.RELEASE;
        if key == KS.LEFT_SHIFT || key == KS.RIGHT_SHIFT { shift := false; }
        if key == KS.CTRL { ctrl := false; }
        if key == KS.ALT { alt := false; }
        return;
      }
      if scancode == KS.LEFT_SHIFT || scancode == KS.RIGHT_SHIFT {
        shift := true;
        return;
      }
      if scancode == KS.CTRL {
        ctrl := true;
        return;
      }
      if scancode == KS.ALT {
        alt := true;
        return;
      }
      var ascii := KS.Ascii(scancode, shift);
      if ascii != 0 {
        Push(ascii);
      }
    }

    /** A byte polled from the serial port in `main`. */
    method HandleSerial(byte: nat)
      requires Valid()
      modifies this`head, this`tail, this`history, buffer
      ensures Valid() && history == KS.Next(old(history), KS.Serial(byte))
    {
      var c := byte;
      if c == KS.CARRIAGE_RETURN {
        c := KS.LINE_FEED;
      }
      Push(c);
    }

    /** Any mix of events, from the start. */
    method HandleAll(events: seq<KS.Event>) returns (read: seq<nat>)
      requires Valid() && history == KS.START
      requires forall i :: 0 <= i < |events| && events[i].Scancode? ==> events[i].code < 256
      modifies this, buffer
      ensures Valid() && history == KS.Run(events)
      ensures |read| == |history.taken|
      ensures forall i :: 0 <= i < |read| ==>
        0 <= history.taken[i] < |history.input| && read[i] == history.input[history.taken[i]]
    {
      hide Contents, KS.Push, KS.ModsAfter, KS.Bytes;
      read := [];
      for n := 0 to |events|
        invariant Valid() && history == KS.Run(events[..n])
        invariant |read| == |history.taken|
        invariant forall i :: 0 <= i < |read| ==>
          0 <= history.taken[i] < |history.input| && read[i] == history.input[history.taken[i]]
      {
        assert events[..n + 1][..n] == events[..n];
        KS.RunKeepsInv(events[..n]);
        match events[n]
        case Scancode(code) => HandleScancode(code);
        case Serial(b) => HandleSerial(b);
        case Read =>
          var b := Read();
          if b.Some? {
            read := read + [b.value];
          }
      }
      assert events[..|events|] == events;
    }
  }

  lemma NoContents(ring: seq<nat>, head: nat)
    requires |ring| == KS.RING_SIZE && head < KS.RING_SIZE
    ensures Contents(ring, head, head) == []
  {
  }
}
