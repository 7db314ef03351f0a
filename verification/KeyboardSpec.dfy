/** The keyboard driver: scan codes and serial bytes go into a bounded queue, reads take them out. */
module KeyboardSpec {
  const RING_SIZE: nat := 256
  const CAPACITY: nat := 255

  // ----- scan codes

  const LEFT_SHIFT: nat := 0x2A
  const RIGHT_SHIFT: nat := 0x36
  const CTRL: nat := 0x1D
  const ALT: nat := 0x38
  const RELEASE: nat := 0x80
  const CARRIAGE_RETURN: nat := 13
  const LINE_FEED: nat := 10

  /** The American layout, in rows of sixteen codes; 0 stands for no character. */
  function Layout(row: nat, shift: bool): (t: seq<nat>)
    ensures |t| == 16
  {
    match row
    case 0 =>
      if shift then [0, 27, 33, 64, 35, 36, 37, 94, 38, 42, 40, 41, 95, 43, 8, 9]
      else [0, 27, 49, 50, 51, 52, 53, 54, 55, 56, 57, 48, 45, 61, 8, 9]
    case 1 =>
      if shift then [81, 87, 69, 82, 84, 89, 85, 73, 79, 80, 123, 125, 10, 0, 65, 83]
      else [113, 119, 101, 114, 116, 121, 117, 105, 111, 112, 91, 93, 10, 0, 97, 115]
    case 2 =>
      if shift then [68, 70, 71, 72, 74, 75, 76, 58, 34, 126, 0, 124, 90, 88, 67, 86]
      else [100, 102, 103, 104, 106, 107, 108, 59, 39, 96, 0, 92, 122, 120, 99, 118]
    case 3 =>
      if shift then [66, 78, 77, 60, 62, 63, 0, 42, 0, 32, 0, 0, 0, 0, 0, 0]
      else [98, 110, 109, 44, 46, 47, 0, 42, 0, 32, 0, 0, 0, 0, 0, 0]
    case 4 => [0, 0, 0, 0, 0, 0, 0, 0, 0, 0, 45, 0, 0, 0, 43, 0]
    case _ => seq(16, _ => 0)
  }

  /** `scancode_to_ascii_convert`. */
  function Ascii(code: nat, shift: bool): nat {
    if code >= 128 then 0 else Layout(code / 16, shift)[code % 16]
  }

  datatype Mods = Mods(shift: bool, ctrl: bool, alt: bool)

  predicate IsShift(code: nat) {
    code == LEFT_SHIFT || code == RIGHT_SHIFT
  }

  predicate IsModifier(code: nat) {
    IsShift(code) || code == CTRL || code == ALT
  }

  /** Releasing either shift key counts as releasing both. */
  function ModsAfter(m: Mods, code: nat): Mods {
    var down := code < RELEASE;
    var key := if down then code else code - RELEASE;
    if IsShift(key) then m.(shift := down)
    else if key == CTRL then m.(ctrl := down)
    else if key == ALT then m.(alt := down)
    else m
  }

  datatype Event = Scancode(code: nat) | Serial(byte: nat) | Read

  /** The byte that an event brings in, if any. */
  function Bytes(shift: bool, e: Event): (s: seq<nat>)
    ensures |s| <= 1
  {
    match e
    case Scancode(code) =>
      if code >= RELEASE || IsModifier(code) || Ascii(code, shift) == 0 then [] else [Ascii(code, shift)]
    case Serial(b) => [if b == CARRIAGE_RETURN then LINE_FEED else b]
    case Read => []
  }

  // ----- the queue

  /** Add at the end, losing the oldest byte of a full queue. */
  function Push(q: seq<nat>, b: nat): seq<nat> {
    (if |q| == CAPACITY then q[1..] else q) + [b]
  }

  /** The queue and the modifiers, with their history: the bytes that came in, and the positions of
      those that were read. */
  datatype Keyboard = Keyboard(queue: seq<nat>, mods: Mods, input: seq<nat>, taken: seq<int>)

  function Add(k: Keyboard, b: nat): Keyboard {
    k.(queue := Push(k.queue, b), input := k.input + [b])
  }

  function Take(k: Keyboard): Keyboard {
    if k.queue == [] then k
    else k.(queue := k.queue[1..], taken := k.taken + [|k.input| - |k.queue|])
  }

  function Next(k: Keyboard, e: Event): Keyboard {
    if e.Read? then Take(k)
    else
      var k' := if e.Scancode? then k.(mods := ModsAfter(k.mods, e.code)) else k;
      var bytes := Bytes(k.mods.shift, e);
      if bytes == [] then k' else Add(k', bytes[0])
  }

  // ----- every mix of events

  const START := Keyboard([], Mods(false, false, false), [], [])

  function Run(events: seq<Event>): Keyboard {
    if events == [] then START else Next(Run(events[..|events| - 1]), events[|events| - 1])
  }

  /** The queue holds the newest bytes; those read are older, and were read in order. */
  ghost predicate Inv(k: Keyboard) {
    && |k.queue| <= 255 && |k.queue| <= |k.input|
    && k.queue == k.input[|k.input| - |k.queue|..]
    && (forall i :: 0 <= i < |k.taken| ==> 0 <= k.taken[i] < |k.input| - |k.queue|)
    && (forall i, j :: 0 <= i < j < |k.taken| ==> k.taken[i] < k.taken[j])
  }

  lemma AddKeepsInv(k: Keyboard, b: nat)
    requires Inv(k)
    ensures Inv(Add(k, b))
  {
    var k' := Add(k, b);
    var n, n' := |k.input| - |k.queue|, |k'.input| - |k'.queue|;
    assert k'.queue == k'.input[n'..] by {
      forall i | 0 <= i < |k'.queue| - 1 ensures k'.queue[i] == k'.input[n' + i] {
        assert k.queue[n' - n + i] == k.input[n' + i];
      }
    }
  }

  lemma TakeKeepsInv(k: Keyboard)
    requires Inv(k)
    ensures Inv(Take(k))
  {
  }

  lemma {:induction false} RunKeepsInv(events: seq<Event>)
    ensures Inv(Run(events))
  {
    hide Inv, Bytes, ModsAfter, Add, Take;
    if events == [] {
      StartIsSound();
    } else {
      var n := |events| - 1;
      RunKeepsInv(events[..n]);
      var k, e := Run(events[..n]), events[n];
      if e.Read? {
        TakeKeepsInv(k);
      } else {
        var k' := if e.Scancode? then k.(mods := ModsAfter(k.mods, e.code)) else k;
        InvIgnoresMods(k, k'.mods);
        if Bytes(k.mods.shift, e) != [] {
          AddKeepsInv(k', Bytes(k.mods.shift, e)[0]);
        }
      }
    }
  }

  lemma StartIsSound()
    ensures Inv(START)
  {
  }

  lemma InvIgnoresMods(k: Keyboard, m: Mods)
    requires Inv(k)
    ensures Inv(k.(mods := m))
  {
  }

  /** Whether the last shift key event was a press. */
  predicate ShiftHeld(events: seq<Event>) {
    if events == [] then false
    else
      var n := |events| - 1;
      match events[n]
      case Scancode(code) =>
        if IsShift(code) then true
        else if code >= RELEASE && IsShift(code - RELEASE) then false
        else ShiftHeld(events[..n])
      case Serial(_) => ShiftHeld(events[..n])
      case Read => ShiftHeld(events[..n])
  }

  /** The bytes that a stream of events stands for, whatever is read meanwhile. */
  function Decode(events: seq<Event>): seq<nat> {
    if events == [] then []
    else
      var n := |events| - 1;
      Decode(events[..n]) + Bytes(ShiftHeld(events[..n]), events[n])
  }

  /** What comes in is what the events stand for. */
  lemma {:induction false} InputIsDecoded(events: seq<Event>)
    ensures Run(events).input == Decode(events) && Run(events).mods.shift == ShiftHeld(events)
  {
    hide Ascii, Push;
    if events != [] {
      InputIsDecoded(events[..|events| - 1]);
    }
  }

  // ----- typing

  /** The key for each printable character, by rows of sixteen characters. */
  function KeyRow(row: nat): (t: seq<nat>)
    ensures |t| == 16
  {
    match row
    case 2 => [0x39, 0x02, 0x28, 0x04, 0x05, 0x06, 0x08, 0x28, 0x0A, 0x0B, 0x09, 0x0D, 0x33, 0x0C, 0x34, 0x35]
    case 3 => [0x0B, 0x02, 0x03, 0x04, 0x05, 0x06, 0x07, 0x08, 0x09, 0x0A, 0x27, 0x27, 0x33, 0x0D, 0x34, 0x35]
    case 4 => [0x03, 0x1E, 0x30, 0x2E, 0x20, 0x12, 0x21, 0x22, 0x23, 0x17, 0x24, 0x25, 0x26, 0x32, 0x31, 0x18]
    case 5 => [0x19, 0x10, 0x13, 0x1F, 0x14, 0x16, 0x2F, 0x11, 0x2D, 0x15, 0x2C, 0x1A, 0x2B, 0x1B, 0x07, 0x0C]
    case 6 => [0x29, 0x1E, 0x30, 0x2E, 0x20, 0x12, 0x21, 0x22, 0x23, 0x17, 0x24, 0x25, 0x26, 0x32, 0x31, 0x18]
    case 7 => [0x19, 0x10, 0x13, 0x1F, 0x14, 0x16, 0x2F, 0x11, 0x2D, 0x15, 0x2C, 0x1A, 0x2B, 0x1B, 0x29, 0x00]
    case _ => seq(16, _ => 0)
  }

  function KeyFor(b: nat): nat {
    KeyRow(b / 16)[b % 16]
  }

  /** Capital letters, and the other characters on the upper half of a key. */
  predicate NeedsShift(b: nat) {
    65 <= b <= 90 || 33 <= b <= 38 || 40 <= b <= 43 || b in {58, 60, 62, 63, 64, 94, 95} || 123 <= b <= 126
  }

  predicate Printable(b: nat) {
    32 <= b <= 126
  }

  /** Every printable character has a key, and that key gives the character. */
  lemma KeyGivesCharacter(b: nat)
    requires Printable(b)
    ensures Ascii(KeyFor(b), NeedsShift(b)) == b && 0 < KeyFor(b) < 128 && !IsModifier(KeyFor(b))
  {
    if b < 40 {
      KeysFrom32(b);
    } else if b < 48 {
      KeysFrom40(b);
    } else if b < 56 {
      KeysFrom48(b);
    } else if b < 64 {
      KeysFrom56(b);
    } else if b < 72 {
      KeysFrom64(b);
    } else if b < 80 {
      KeysFrom72(b);
    } else if b < 88 {
      KeysFrom80(b);
    } else if b < 96 {
      KeysFrom88(b);
    } else if b < 104 {
      KeysFrom96(b);
    } else if b < 112 {
      KeysFrom104(b);
    } else if b < 120 {
      KeysFrom112(b);
    } else {
      KeysFrom120(b);
    }
  }

  lemma KeysFrom32(b: nat)
    requires 32 <= b < 40
    ensures Ascii(KeyFor(b), NeedsShift(b)) == b && 0 < KeyFor(b) < 128 && !IsModifier(KeyFor(b))
  {
  }

  lemma KeysFrom40(b: nat)
    requires 40 <= b < 48
    ensures Ascii(KeyFor(b), NeedsShift(b)) == b && 0 < KeyFor(b) < 128 && !IsModifier(KeyFor(b))
  {
  }

  lemma KeysFrom48(b: nat)
    requires 48 <= b < 56
    ensures Ascii(KeyFor(b), NeedsShift(b)) == b && 0 < KeyFor(b) < 128 && !IsModifier(KeyFor(b))
  {
  }

  lemma KeysFrom56(b: nat)
    requires 56 <= b < 64
    ensures Ascii(KeyFor(b), NeedsShift(b)) == b && 0 < KeyFor(b) < 128 && !IsModifier(KeyFor(b))
  {
  }

  lemma KeysFrom64(b: nat)
    requires 64 <= b < 72
    ensures Ascii(KeyFor(b), NeedsShift(b)) == b && 0 < KeyFor(b) < 128 && !IsModifier(KeyFor(b))
  {
  }

  lemma KeysFrom72(b: nat)
    requires 72 <= b < 80
    ensures Ascii(KeyFor(b), NeedsShift(b)) == b && 0 < KeyFor(b) < 128 && !IsModifier(KeyFor(b))
  {
  }

  lemma KeysFrom80(b: nat)
    requires 80 <= b < 88
    ensures Ascii(KeyFor(b), NeedsShift(b)) == b && 0 < KeyFor(b) < 128 && !IsModifier(KeyFor(b))
  {
  }

  lemma KeysFrom88(b: nat)
    requires 88 <= b < 96
    ensures Ascii(KeyFor(b), NeedsShift(b)) == b && 0 < KeyFor(b) < 128 && !IsModifier(KeyFor(b))
  {
  }

  lemma KeysFrom96(b: nat)
    requires 96 <= b < 104
    ensures Ascii(KeyFor(b), NeedsShift(b)) == b && 0 < KeyFor(b) < 128 && !IsModifier(KeyFor(b))
  {
  }

  lemma KeysFrom104(b: nat)
    requires 104 <= b < 112
    ensures Ascii(KeyFor(b), NeedsShift(b)) == b && 0 < KeyFor(b) < 128 && !IsModifier(KeyFor(b))
  {
  }

  lemma KeysFrom112(b: nat)
    requires 112 <= b < 120
    ensures Ascii(KeyFor(b), NeedsShift(b)) == b && 0 < KeyFor(b) < 128 && !IsModifier(KeyFor(b))
  {
  }

  lemma KeysFrom120(b: nat)
    requires 120 <= b < 127
    ensures Ascii(KeyFor(b), NeedsShift(b)) == b && 0 < KeyFor(b) < 128 && !IsModifier(KeyFor(b))
  {
  }

  /** Pressing and releasing the key for a character, with the left shift key held if need be. */
  function Stroke(b: nat): seq<Event> {
    var key := [Scancode(KeyFor(b)), Scancode(KeyFor(b) + 0x80)];
    if NeedsShift(b) then [Scancode(0x2A)] + key + [Scancode(0xAA)] else key
  }

  function Typed(text: seq<nat>): seq<Event> {
    if text == [] then [] else Typed(text[..|text| - 1]) + Stroke(text[|text| - 1])
  }

  lemma DecodeSnoc(events: seq<Event>, e: Event)
    ensures Decode(events + [e]) == Decode(events) + Bytes(ShiftHeld(events), e)
    ensures ShiftHeld(events + [e]) ==
      match e
      case Scancode(code) => if IsShift(code) then true else if code >= RELEASE && IsShift(code - RELEASE) then false
                             else ShiftHeld(events)
      case _ => ShiftHeld(events)
  {
    assert (events + [e])[..|events|] == events;
  }

  lemma StrokeComesIn(events: seq<Event>, b: nat)
    requires !ShiftHeld(events) && Printable(b)
    ensures Decode(events + Stroke(b)) == Decode(events) + [b] && !ShiftHeld(events + Stroke(b))
  {
    hide Ascii, KeyFor, NeedsShift, Decode, ShiftHeld;
    KeyGivesCharacter(b);
    var press, release := Scancode(KeyFor(b)), Scancode(KeyFor(b) + 0x80);
    if NeedsShift(b) {
      var down, up := Scancode(0x2A), Scancode(0xAA);
      DecodeSnoc(events, down);
      DecodeSnoc(events + [down], press);
      DecodeSnoc(events + [down] + [press], release);
      DecodeSnoc(events + [down] + [press] + [release], up);
      assert events + Stroke(b) == events + [down] + [press] + [release] + [up];
    } else {
      DecodeSnoc(events, press);
      DecodeSnoc(events + [press], release);
      assert events + Stroke(b) == events + [press] + [release];
    }
  }

  /** Any printable text that is typed comes in as it is. */
  lemma {:induction false} TypedTextComesIn(text: seq<nat>)
    requires forall i :: 0 <= i < |text| ==> Printable(text[i])
    ensures Run(Typed(text)).input == text && !Run(Typed(text)).mods.shift
  {
    hide Run, Stroke;
    TypedDecodes(text);
    InputIsDecoded(Typed(text));
  }

  lemma {:induction false} TypedDecodes(text: seq<nat>)
    requires forall i :: 0 <= i < |text| ==> Printable(text[i])
    ensures Decode(Typed(text)) == text && !ShiftHeld(Typed(text))
  {
    hide Stroke, Decode, ShiftHeld;
    if text == [] {
      NothingDecodes();
    } else {
      var n := |text| - 1;
      TypedDecodes(text[..n]);
      StrokeComesIn(Typed(text[..n]), text[n]);
    }
  }

  lemma NothingDecodes()
    ensures Decode([]) == [] && !ShiftHeld([])
  {
  }

  /** Bytes from the serial port come in as they are, but for carriage returns, which come in as line feeds. */
  lemma {:induction false} SerialComesIn(events: seq<Event>, bytes: seq<nat>)
    ensures var input := Run(events + Serials(bytes)).input;
      && |input| == |Run(events).input| + |bytes| && Run(events).input <= input
      && (forall i :: 0 <= i < |bytes| ==>
            input[|Run(events).input| + i] == if bytes[i] == 13 then 10 else bytes[i])
  {
    hide Run;
    if bytes == [] {
      assert events + Serials(bytes) == events;
    } else {
      var n := |bytes| - 1;
      SerialComesIn(events, bytes[..n]);
      var all := events + Serials(bytes);
      assert all == events + Serials(bytes[..n]) + [Serial(bytes[n])];
      ByteComesIn(events + Serials(bytes[..n]), bytes[n]);
      assert forall i :: 0 <= i < n ==> bytes[..n][i] == bytes[i];
    }
  }

  lemma ByteComesIn(events: seq<Event>, b: nat)
    ensures Run(events + [Serial(b)]).input == Run(events).input + [if b == 13 then 10 else b]
  {
    hide Push;
    assert (events + [Serial(b)])[..|events|] == events;
  }

  function Serials(bytes: seq<nat>): (s: seq<Event>)
    ensures |s| == |bytes|
  {
    seq(|bytes|, i requires 0 <= i < |bytes| => Serial(bytes[i]))
  }

  // ----- modifiers

  /** One of the keys was pressed and none of them released since. */
  ghost predicate HeldDown(events: seq<Event>, keys: set<nat>) {
    exists i :: 0 <= i < |events| && Presses(events[i], keys) && NoneReleased(events[i + 1..], keys)
  }

  predicate Presses(e: Event, keys: set<nat>) {
    e.Scancode? && e.code in keys
  }

  predicate Releases(e: Event, keys: set<nat>) {
    e.Scancode? && e.code >= 0x80 && e.code - 0x80 in keys
  }

  predicate NoneReleased(events: seq<Event>, keys: set<nat>) {
    forall i :: 0 <= i < |events| ==> !Releases(events[i], keys)
  }

  lemma HeldSnoc(events: seq<Event>, e: Event, keys: set<nat>)
    requires forall k :: k in keys ==> k < 0x80
    ensures HeldDown(events + [e], keys) <==> Presses(e, keys) || (!Releases(e, keys) && HeldDown(events, keys))
  {
    hide Presses, Releases, HeldDown;
    if Presses(e, keys) {
      HeldNow(events, e, keys);
    } else if HeldDown(events + [e], keys) {
      HeldBefore(events, e, keys);
    } else if HeldDown(events, keys) && !Releases(e, keys) {
      HeldOn(events, e, keys);
    }
  }

  lemma HeldNow(events: seq<Event>, e: Event, keys: set<nat>)
    requires Presses(e, keys)
    ensures HeldDown(events + [e], keys)
  {
    hide Presses, Releases;
    var all := events + [e];
    assert all[|events|] == e && all[|events| + 1..] == [];
  }

  lemma HeldOn(events: seq<Event>, e: Event, keys: set<nat>)
    requires HeldDown(events, keys) && !Releases(e, keys)
    ensures HeldDown(events + [e], keys)
  {
    hide Presses, Releases;
    var all := events + [e];
    var i :| 0 <= i < |events| && Presses(events[i], keys) && NoneReleased(events[i + 1..], keys);
    assert all[i] == events[i] && all[i + 1..] == events[i + 1..] + [e];
  }

  lemma HeldBefore(events: seq<Event>, e: Event, keys: set<nat>)
    requires HeldDown(events + [e], keys) && !Presses(e, keys)
    ensures HeldDown(events, keys) && !Releases(e, keys)
  {
    hide Presses, Releases;
    var all := events + [e];
    var i :| 0 <= i < |all| && Presses(all[i], keys) && NoneReleased(all[i + 1..], keys);
    var tail, tail' := events[i + 1..], all[i + 1..];
    assert tail' == tail + [e];
    assert tail'[|tail|] == e && forall j :: 0 <= j < |tail| ==> tail[j] == tail'[j];
    assert all[i] == events[i] && NoneReleased(tail, keys);
  }

  /** A modifier counts as held exactly if one of its keys was pressed and none released since. */
  lemma {:induction false} ModifiersHeld(events: seq<Event>)
    ensures var m := Run(events).mods;
      && (m.shift <==> HeldDown(events, {0x2A, 0x36}))
      && (m.ctrl <==> HeldDown(events, {0x1D}))
      && (m.alt <==> HeldDown(events, {0x38}))
  {
    hide HeldDown, Run;
    if events == [] {
      assert Run(events) == START by { RunOfNothing(); }
      NothingHeld({0x2A, 0x36});
      NothingHeld({0x1D});
      NothingHeld({0x38});
    } else {
      var n := |events| - 1;
      ModifiersHeld(events[..n]);
      assert events == events[..n] + [events[n]];
      RunSetsModifiers(events);
      HeldSnoc(events[..n], events[n], {0x2A, 0x36});
      HeldSnoc(events[..n], events[n], {0x1D});
      HeldSnoc(events[..n], events[n], {0x38});
    }
  }

  lemma RunOfNothing()
    ensures Run([]) == START
  {
  }

  lemma RunSetsModifiers(events: seq<Event>)
    requires events != []
    ensures var n := |events| - 1; var m := Run(events[..n]).mods;
      Run(events).mods == if events[n].Scancode? then ModsAfter(m, events[n].code) else m
  {
    hide Bytes, Push, ModsAfter;
  }

  lemma NothingHeld(keys: set<nat>)
    ensures !HeldDown([], keys)
  {
  }

  /** Whether the event brings in a byte while the queue is full. */
  predicate Overflows(k: Keyboard, e: Event) {
    |Next(k, e).input| > |k.input| && |k.queue| == 255
  }

  function Overflowed(events: seq<Event>): nat {
    if events == [] then 0
    else
      var n := |events| - 1;
      Overflowed(events[..n]) + if Overflows(Run(events[..n]), events[n]) then 1 else 0
  }

  /** Every byte that came in was read, is queued, or was the oldest one when a byte came into a full
      queue: so nothing is lost exactly when that never happened. */
  lemma {:induction false} LostIffOverflowed(events: seq<Event>)
    ensures var k := Run(events); |k.input| == |k.taken| + |k.queue| + Overflowed(events)
  {
    hide Bytes;
    if events != [] {
      LostIffOverflowed(events[..|events| - 1]);
      RunKeepsInv(events[..|events| - 1]);
    }
  }

  /** With no overflow, what was read and what is queued are together all that came in, in order. */
  lemma AllReadInOrder(events: seq<Event>)
    requires Overflowed(events) == 0
    ensures var k := Run(events);
      && |k.taken| <= |k.input| && k.queue == k.input[|k.taken|..]
      && forall i :: 0 <= i < |k.taken| ==> k.taken[i] == i
  {
    hide Run, Overflowed;
    LostIffOverflowed(events);
    RunKeepsInv(events);
    forall i | 0 <= i < |Run(events).taken| ensures Run(events).taken[i] == i {
      AscendingIsIdentity(Run(events).taken, i);
    }
  }

  lemma {:induction false} AscendingIsIdentity(s: seq<int>, i: nat)
    requires i < |s| && forall j :: 0 <= j < |s| ==> 0 <= s[j] < |s|
    requires forall j, k :: 0 <= j < k < |s| ==> s[j] < s[k]
    ensures s[i] == i
  {
    AtLeast(s, i);
    AtMost(s, i);
  }

  lemma {:induction false} AtLeast(s: seq<int>, i: nat)
    requires i < |s| && s[0] >= 0 && forall j, k :: 0 <= j < k < |s| ==> s[j] < s[k]
    ensures s[i] >= i
  {
    if i > 0 {
      AtLeast(s, i - 1);
    }
  }

  lemma {:induction false} AtMost(s: seq<int>, i: nat)
    requires i < |s| && s[|s| - 1] < |s| && forall j, k :: 0 <= j < k < |s| ==> s[j] < s[k]
    ensures s[i] <= i
    decreases |s| - i
  {
    if i < |s| - 1 {
      AtMost(s, i + 1);
    }
  }
}
