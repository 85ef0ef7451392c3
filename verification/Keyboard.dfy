/** kernelcpp/code/Keyboard.cpp (its lines end in a bare carriage return, so all of it is line 1): the scancode
    decoder, the table of pressed keys and the line buffer. */
module Keyboard {

  /** A key code; 0 is CHAR_UNDEFINED, and no key has code 1. */
  type Key = k: nat | k == 0 || 1 < k < 256

  type Byte = b: nat | b < 256

  const SHIFT: Key := 0x10
  const CONTROL: Key := 0x11
  const PAUSE: Key := 0x13
  const ENTER: Key := 0x0D
  const PRINTSCREEN: Key := 0x2C
  const ALT: Key := 0xB8
  const LINE := 78

  // SCANCODE_TO_KEY_TABLE, sixteen entries at a time
  function Row(r: nat): (keys: seq<Key>)
    ensures |keys| == 16
  {
    match r
    case 0x0 => [0x00, 0x78, 0x00, 0x74, 0x72, 0x70, 0x71, 0x7B, 0x00, 0x79, 0x77, 0x75, 0x73, 0x09, 0xC0, 0x00]
    case 0x1 => [0x00, 0xB8, 0x10, 0x00, 0x11, 0x51, 0x31, 0x00, 0x00, 0x00, 0x5A, 0x53, 0x41, 0x57, 0x32, 0x00]
    case 0x2 => [0x00, 0x43, 0x58, 0x44, 0x45, 0x34, 0x33, 0x00, 0x00, 0x20, 0x56, 0x46, 0x54, 0x52, 0x35, 0x00]
    case 0x3 => [0x00, 0x4E, 0x42, 0x48, 0x47, 0x59, 0x36, 0x00, 0x00, 0x00, 0x4D, 0x4A, 0x55, 0x37, 0x38, 0x00]
    case 0x4 => [0x00, 0xBC, 0x4B, 0x49, 0x4F, 0x30, 0x39, 0x00, 0x00, 0xBE, 0xBF, 0x4C, 0xBA, 0x50, 0x6D, 0x00]
    case 0x5 => [0x00, 0x00, 0xDE, 0x00, 0xDB, 0xBB, 0x00, 0x00, 0x14, 0x10, 0x0D, 0xDD, 0x00, 0xDC, 0x00, 0x00]
    case 0x6 => [0x00, 0x00, 0x00, 0x00, 0x00, 0x00, 0x08, 0x00, 0x00, 0x61, 0x00, 0x64, 0x67, 0x00, 0x00, 0x00]
    case 0x7 => [0x60, 0xBE, 0x62, 0x65, 0x66, 0x68, 0x1B, 0x90, 0x7A, 0xBB, 0x63, 0x6D, 0x6A, 0x69, 0x91, 0x00]
    case 0x8 => [0x00, 0x00, 0x00, 0x76, 0x00, 0x00, 0x00, 0x00, 0x00, 0x00, 0x00, 0x00, 0x00, 0x00, 0x00, 0x00]
    case _ => seq(16, i => 0)
  }

  function KeyOf(code: Byte): Key {
    Row(code / 16)[code % 16]
  }

  lemma SpecialCodes()
    ensures KeyOf(0xFA) == KeyOf(0xFE) == KeyOf(0xE0) == KeyOf(0xE1) == KeyOf(0xF0) == 0
    ensures KeyOf(0x12) == SHIFT && KeyOf(0x7C) == 0x6A
  {
  }

  // ----- decoding -----

  datatype Event = Event(key: Key, pressed: bool)

  datatype Decoder = Decoder(length: nat, pressed: bool, ignore: nat)

  const START := Decoder(0, true, 0)

  datatype Result = Result(decoder: Decoder, events: seq<Event>)

  /** What handleKeyboardEvent makes of one scancode. */
  function Decode(d: Decoder, b: Byte): Result {
    if b == 0xFA || b == 0xFE then Result(d, [])
    else if d.ignore > 0 then Result(d.(ignore := d.ignore - 1, length := d.length + 1), [])
    else if d.length == 0 && b == 0xE1 then Result(Decoder(0, true, 7), [Event(PAUSE, true), Event(PAUSE, false)])
    else if d.length == 1 && b == 0x12 && d.pressed then Result(Decoder(0, true, 2), [Event(PRINTSCREEN, true)])
    else if d.length == 2 && b == 0x7C && !d.pressed then Result(Decoder(0, true, 3), [Event(PRINTSCREEN, false)])
    else if b == 0xF0 then Result(d.(pressed := false, length := d.length + 1), [])
    else if b == 0xE0 then Result(d.(length := d.length + 1), [])
    else if KeyOf(b) != 0 then Result(START, [Event(KeyOf(b), d.pressed)])
    else Result(d.(length := d.length + 1), [])
  }

  function DecodeAll(d: Decoder, bytes: seq<Byte>): Result
    decreases |bytes|
  {
    if bytes == [] then Result(d, [])
    else
      var r := Decode(d, bytes[0]);
      var rest := DecodeAll(r.decoder, bytes[1..]);
      Result(rest.decoder, r.events + rest.events)
  }

  /** A press or a release as the keyboard sends it (scancode set 2). */
  datatype Stroke = Stroke(extended: bool, release: bool, code: Byte)

  function Encode(s: Stroke): seq<Byte> {
    (if s.extended then [0xE0] else []) + (if s.release then [0xF0] else []) + [s.code]
  }

  function EncodeAll(strokes: seq<Stroke>): seq<Byte> {
    if strokes == [] then [] else Encode(strokes[0]) + EncodeAll(strokes[1..])
  }

  function Meant(strokes: seq<Stroke>): seq<Event> {
    if strokes == [] then [] else [Event(KeyOf(strokes[0].code), !strokes[0].release)] + Meant(strokes[1..])
  }

  /** Not the second byte of a Print Screen press, nor the third of its release. */
  predicate Ordinary(s: Stroke) {
    KeyOf(s.code) != 0 && !(s.extended && !s.release && s.code == 0x12) && !(s.extended && s.release && s.code == 0x7C)
  }

  /** Only these are read as meant: an extended press of 0x12 and an extended release of 0x7C pass for
      Print Screen, whatever follows them. */
  lemma StrokeDecodesIff(s: Stroke)
    ensures DecodeAll(START, Encode(s)) == Result(START, [Event(KeyOf(s.code), !s.release)]) <==> Ordinary(s)
  {
    SpecialCodes();
    hide KeyOf;
    var e := Encode(s);
    var d1 := if s.extended then Decoder(1, true, 0) else START;
    var d2 := if s.release then Decoder(d1.length + 1, false, 0) else d1;
    assert DecodeAll(d2, [s.code]) == Decode(d2, s.code) by {
      var r := Decode(d2, s.code);
      assert r.events + [] == r.events;
    }
    var tail := (if s.release then [0xF0] else []) + [s.code];
    assert DecodeAll(d1, tail) == DecodeAll(d2, [s.code]) by {
      if s.release {
        assert tail[1..] == [s.code];
        assert Decode(d1, tail[0]) == Result(d2, []);
      } else {
        assert tail == [s.code];
      }
    }
    assert DecodeAll(START, e) == DecodeAll(d1, tail) by {
      if s.extended {
        assert e[1..] == tail;
        assert Decode(START, e[0]) == Result(d1, []);
      } else {
        assert e == tail;
      }
    }
  }

  /** The release of a key the table does not know leaves the decoder waiting: the next press is read as a
      release. */
  lemma UnknownReleaseSticks(u: Byte, c: Byte)
    requires KeyOf(u) == 0 && u !in {0xE0, 0xE1, 0xF0, 0xFA, 0xFE} && KeyOf(c) != 0 && c != 0x7C
    ensures DecodeAll(START, Encode(Stroke(false, true, u)) + Encode(Stroke(false, false, c)))
              == Result(START, [Event(KeyOf(c), false)])
  {
    SpecialCodes();
    hide KeyOf;
    var bytes := Encode(Stroke(false, true, u)) + Encode(Stroke(false, false, c));
    assert bytes == [0xF0, u, c] && bytes[1..] == [u, c] && bytes[1..][1..] == [c];
    assert DecodeAll(Decoder(2, false, 0), [c]) == Result(START, [Event(KeyOf(c), false)]);
    assert Decode(Decoder(1, false, 0), u) == Result(Decoder(2, false, 0), []);
    assert DecodeAll(Decoder(1, false, 0), [u, c]) == Result(START, [Event(KeyOf(c), false)]);
  }

  lemma {:induction false} DecodeAppend(d: Decoder, a: seq<Byte>, b: seq<Byte>)
    ensures var r := DecodeAll(d, a);
            var t := DecodeAll(r.decoder, b);
            DecodeAll(d, a + b) == Result(t.decoder, r.events + t.events)
    decreases |a|
  {
    if a == [] {
      assert a + b == b;
    } else {
      var r := Decode(d, a[0]);
      DecodeAppend(r.decoder, a[1..], b);
      assert (a + b)[1..] == a[1..] + b;
      var u := DecodeAll(r.decoder, a[1..]);
      var t := DecodeAll(u.decoder, b);
      assert r.events + (u.events + t.events) == (r.events + u.events) + t.events;
    }
  }

  /** Decoding undoes encoding, and the decoder is ready for the next stroke. */
  lemma {:induction false} RoundTrip(strokes: seq<Stroke>)
    requires forall s :: s in strokes ==> Ordinary(s)
    ensures DecodeAll(START, EncodeAll(strokes)) == Result(START, Meant(strokes))
  {
    if strokes != [] {
      StrokeDecodesIff(strokes[0]);
      RoundTrip(strokes[1..]);
      DecodeAppend(START, Encode(strokes[0]), EncodeAll(strokes[1..]));
    }
  }

  /** The keyboard's answers to commands, wherever they fall, make no difference. */
  function WithoutAnswers(bytes: seq<Byte>): seq<Byte> {
    if bytes == [] then []
    else (if bytes[0] == 0xFA || bytes[0] == 0xFE then [] else [bytes[0]]) + WithoutAnswers(bytes[1..])
  }

  lemma {:induction false} AnswersPass(d: Decoder, bytes: seq<Byte>)
    ensures DecodeAll(d, bytes) == DecodeAll(d, WithoutAnswers(bytes))
    decreases |bytes|
  {
    if bytes != [] {
      var r := Decode(d, bytes[0]);
      AnswersPass(r.decoder, bytes[1..]);
      var w := WithoutAnswers(bytes);
      if bytes[0] != 0xFA && bytes[0] != 0xFE {
        assert w[0] == bytes[0] && w[1..] == WithoutAnswers(bytes[1..]);
      } else {
        assert w == WithoutAnswers(bytes[1..]);
        assert [] + DecodeAll(d, bytes[1..]).events == DecodeAll(d, bytes[1..]).events;
      }
    }
  }

  // ----- the keys with sequences of their own -----

  const PAUSE_STROKE: seq<Byte> := [0xE1, 0x14, 0x77, 0xE1, 0xF0, 0x14, 0xF0, 0x77]
  const PRINTSCREEN_PRESS: seq<Byte> := [0xE0, 0x12, 0xE0, 0x7C]
  const PRINTSCREEN_RELEASE: seq<Byte> := [0xE0, 0xF0, 0x7C, 0xE0, 0xF0, 0x12]

  /** The bytes to be ignored pass, but are counted. */
  lemma {:induction false} Ignored(d: Decoder, bytes: seq<Byte>)
    requires d.ignore == |bytes| && forall i :: 0 <= i < |bytes| ==> bytes[i] != 0xFA && bytes[i] != 0xFE
    ensures DecodeAll(d, bytes) == Result(d.(ignore := 0, length := d.length + |bytes|), [])
    decreases |bytes|
  {
    if bytes != [] {
      assert Decode(d, bytes[0]) == Result(d.(ignore := d.ignore - 1, length := d.length + 1), []);
      Ignored(d.(ignore := d.ignore - 1, length := d.length + 1), bytes[1..]);
    }
  }

  /** Pause is read as a press and a release after a key, and leaves seven bytes counted. */
  lemma PauseDecodes()
    ensures DecodeAll(START, PAUSE_STROKE) == Result(Decoder(7, true, 0), [Event(PAUSE, true), Event(PAUSE, false)])
  {
    Ignored(Decoder(0, true, 7), PAUSE_STROKE[1..]);
    var both := [Event(PAUSE, true), Event(PAUSE, false)];
    assert both + [] == both;
  }

  /** Print Screen's press and release are read as meant exactly if no bytes are counted when they come; then
      the press leaves two, the release three. */
  lemma PrintScreenIff(n: nat)
    ensures n == 0 <==>
              DecodeAll(Decoder(n, true, 0), PRINTSCREEN_PRESS)
                == Result(Decoder(2, true, 0), [Event(PRINTSCREEN, true)])
    ensures n == 0 <==>
              DecodeAll(Decoder(n, true, 0), PRINTSCREEN_RELEASE)
              == Result(Decoder(3, true, 0), [Event(PRINTSCREEN, false)])
    ensures n > 0 ==> DecodeAll(Decoder(n, true, 0), PRINTSCREEN_RELEASE)
                      == Result(START, [Event(KeyOf(0x7C), false), Event(SHIFT, false)])
  {
    PrintScreenPress(n);
    PrintScreenRelease(n);
  }

  lemma PrintScreenPress(n: nat)
    ensures var r := DecodeAll(Decoder(n, true, 0), PRINTSCREEN_PRESS);
            if n == 0 then r == Result(Decoder(2, true, 0), [Event(PRINTSCREEN, true)])
            else r.events[..1] == [Event(SHIFT, true)]
  {
    SpecialCodes();
    hide KeyOf;
    var rest, last := PRINTSCREEN_PRESS[1..], PRINTSCREEN_PRESS[2..];
    assert rest[1..] == last;
    assert Decode(Decoder(n, true, 0), 0xE0) == Result(Decoder(n + 1, true, 0), []);
    if n == 0 {
      Ignored(Decoder(0, true, 2), last);
      assert DecodeAll(Decoder(1, true, 0), rest) == Result(Decoder(2, true, 0), [Event(PRINTSCREEN, true)] + []);
    } else {
      assert DecodeAll(Decoder(n + 1, true, 0), rest).events
             == [Event(SHIFT, true)] + DecodeAll(START, last).events;
    }
  }

  lemma PrintScreenRelease(n: nat)
    ensures DecodeAll(Decoder(n, true, 0), PRINTSCREEN_RELEASE)
            == if n == 0 then Result(Decoder(3, true, 0), [Event(PRINTSCREEN, false)])
               else Result(START, [Event(KeyOf(0x7C), false), Event(SHIFT, false)])
  {
    SpecialCodes();
    hide KeyOf, DecodeAll;
    var first, last := PRINTSCREEN_RELEASE[..3], PRINTSCREEN_RELEASE[3..];
    assert first == [0xE0, 0xF0, 0x7C] && last == [0xE0, 0xF0, 0x12] && PRINTSCREEN_RELEASE == first + last;
    DecodeAppend(Decoder(n, true, 0), first, last);
    ThreeBytes(Decoder(n, true, 0), 0xE0, 0xF0, 0x7C);
    if n == 0 {
      Ignored(Decoder(0, true, 3), last);
    } else {
      ThreeBytes(START, 0xE0, 0xF0, 0x12);
    }
  }

  lemma ThreeBytes(d: Decoder, a: Byte, b: Byte, c: Byte)
    ensures var x := Decode(d, a);
            var y := Decode(x.decoder, b);
            var z := Decode(y.decoder, c);
            DecodeAll(d, [a, b, c]) == Result(z.decoder, x.events + y.events + z.events)
  {
    hide Decode;
    var x := Decode(d, a);
    var y := Decode(x.decoder, b);
    var z := Decode(y.decoder, c);
    assert [a, b, c][1..] == [b, c] && [b, c][1..] == [c] && [c][1..] == [];
    assert DecodeAll(y.decoder, [c]) == Result(z.decoder, z.events + []);
    assert x.events + (y.events + (z.events + [])) == x.events + y.events + z.events;
  }

  // ----- pressed keys and typed characters -----

  /** The keys held down and the characters typed since the line buffer was last emptied. */
  datatype Desk = Desk(held: set<Key>, typed: seq<nat>)

  /** What a key press types: small letters without shift, the signs over the digits with it, and any other
      key but shift and alt as its own code; control too, as line 67 looks up a comparison as a key. */
  function Char(key: Key, held: set<Key>): (c: seq<nat>)
    ensures key != 0 ==> forall x :: x in c ==> 0 < x < 256
    ensures key == ENTER ==> c == [ENTER]
    ensures |c| <= 1
  {
    if 64 < key < 94 && SHIFT !in held then [key + 32]
    else if 48 < key < 58 && SHIFT in held then [key - 16]
    else if key != SHIFT && key != ALT then [key]
    else []
  }

  function Held(held: set<Key>, e: Event): set<Key> {
    if e.pressed then held + {e.key} else held - {e.key}
  }

  // the characters typed once an event has added its own
  function Typing(k: Desk, e: Event): seq<nat> {
    if e.pressed then k.typed + Char(e.key, Held(k.held, e)) else k.typed
  }

  predicate Flushes(k: Desk, e: Event) {
    e.pressed && (e.key == ENTER || |Typing(k, e)| == LINE)
  }

  /** setPressed. */
  function Strike(k: Desk, e: Event): Desk {
    Desk(Held(k.held, e), if Flushes(k, e) then [] else Typing(k, e))
  }

  /** The buffer a listener is shown: the characters, enter's own replaced by the terminator, then zeros. */
  function Shown(typed: seq<nat>, enter: bool): (b: seq<nat>)
    requires |typed| <= LINE && (enter ==> typed != [])
    ensures |b| == LINE
  {
    (if enter then typed[..|typed| - 1] + [0] else typed) + seq(LINE - |typed|, i => 0)
  }

  function StrikeAll(k: Desk, events: seq<Event>): Desk {
    if events == [] then k else Strike(StrikeAll(k, events[..|events| - 1]), events[|events| - 1])
  }

  const IDLE := Desk({}, [])

  ghost predicate Ok(k: Desk) {
    |k.typed| < LINE && forall x :: x in k.typed ==> 0 < x < 256
  }

  ghost predicate Real(events: seq<Event>) {
    forall e :: e in events ==> e.key != 0
  }

  lemma StrikeOk(k: Desk, e: Event)
    requires Ok(k) && e.key != 0
    ensures Ok(Strike(k, e)) && |Typing(k, e)| <= LINE && forall x :: x in Typing(k, e) ==> 0 < x < 256
    ensures e.pressed && e.key == ENTER ==> |Typing(k, e)| > 0 && Typing(k, e)[|Typing(k, e)| - 1] == ENTER
  {
  }

  /** The line buffer never holds more than it has room for. */
  lemma {:induction false} StaysInBuffer(events: seq<Event>)
    requires Real(events)
    ensures Ok(StrikeAll(IDLE, events))
  {
    if events != [] {
      var before := events[..|events| - 1];
      assert forall e :: e in before ==> e in events;
      StaysInBuffer(before);
      StrikeOk(StrikeAll(IDLE, before), events[|events| - 1]);
    }
  }

  /** Event `i` presses a key that no later event is about. */
  ghost predicate LastPress(events: seq<Event>, key: Key, i: nat) {
    i < |events| && events[i] == Event(key, true) && forall j :: i < j < |events| ==> events[j].key != key
  }

  ghost predicate PressedLast(events: seq<Event>, key: Key) {
    exists i :: LastPress(events, key, i)
  }

  lemma LastPressBefore(events: seq<Event>, key: Key)
    requires events != [] && events[|events| - 1].key != key
    ensures PressedLast(events, key) <==> PressedLast(events[..|events| - 1], key)
  {
    var before := events[..|events| - 1];
    forall i: nat
      ensures LastPress(events, key, i) <==> LastPress(before, key, i)
    {
      if LastPress(before, key, i) {
        assert forall j :: i < j < |before| ==> events[j] == before[j];
      }
      if LastPress(events, key, i) {
        assert forall j :: i < j < |before| ==> before[j] == events[j];
      }
    }
  }

  /** A key is down exactly when its last event was a press. */
  lemma {:induction false} HeldIff(events: seq<Event>, key: Key)
    ensures key in StrikeAll(IDLE, events).held <==> PressedLast(events, key)
  {
    if events != [] {
      var n := |events| - 1;
      HeldIff(events[..n], key);
      if events[n].key != key {
        LastPressBefore(events, key);
      } else if events[n].pressed {
        assert LastPress(events, key, n);
      }
    }
  }

  /** So a Print Screen pressed and released stays down: its release finds two bytes still counted. */
  lemma PrintScreenSticks()
    ensures PRINTSCREEN in FeedAll(START, IDLE, PRINTSCREEN_PRESS + PRINTSCREEN_RELEASE).1.held
  {
    hide KeyOf, DecodeAll, Decode, StrikeAll, FeedAll;
    var bytes := PRINTSCREEN_PRESS + PRINTSCREEN_RELEASE;
    FeedIsDecode(START, IDLE, bytes);
    DecodeAppend(START, PRINTSCREEN_PRESS, PRINTSCREEN_RELEASE);
    PrintScreenIff(0);
    PrintScreenIff(2);
    var events := DecodeAll(START, bytes).events;
    assert events == [Event(PRINTSCREEN, true), Event(KeyOf(0x7C), false), Event(SHIFT, false)];
    HeldIff(events, PRINTSCREEN);
    SpecialCodes();
    assert LastPress(events, PRINTSCREEN, 0);
  }

  /** The lines handed over, as they were typed, one per flush. */
  function Lines(events: seq<Event>): seq<seq<nat>> {
    if events == [] then []
    else
      var k, e := StrikeAll(IDLE, events[..|events| - 1]), events[|events| - 1];
      Lines(events[..|events| - 1]) + if Flushes(k, e) then [Typing(k, e)] else []
  }

  /** Everything typed, with no thought of lines. */
  function AllTyped(events: seq<Event>): seq<nat> {
    if events == [] then []
    else
      var k, e := StrikeAll(IDLE, events[..|events| - 1]), events[|events| - 1];
      AllTyped(events[..|events| - 1]) + if e.pressed then Char(e.key, Held(k.held, e)) else []
  }

  /** What one more event adds to the text, by the keys that are down: a letter key, or one of the three signs
      after Z, is 32 more unless shift was pressed last; a digit but 0 is 16 less if it was; shift and alt add
      nothing; any other key adds its own code; and a release adds nothing. */
  lemma KeyTypes(events: seq<Event>, e: Event)
    ensures AllTyped(events + [e]) == AllTyped(events)
              + if !e.pressed || e.key == SHIFT || e.key == ALT then []
                else if 65 <= e.key <= 93 then [if PressedLast(events, SHIFT) then e.key else e.key + 32]
                else if 49 <= e.key <= 57 then [if PressedLast(events, SHIFT) then e.key - 16 else e.key]
                else [e.key]
  {
    assert (events + [e])[..|events|] == events;
    HeldIff(events, SHIFT);
  }

  function Flat(lines: seq<seq<nat>>): seq<nat> {
    if lines == [] then [] else Flat(lines[..|lines| - 1]) + lines[|lines| - 1]
  }

  /** The lines handed over and what is still in the buffer are together all that was typed: nothing is lost,
      doubled or moved. */
  lemma {:induction false} LinesKeepText(events: seq<Event>)
    ensures Flat(Lines(events)) + StrikeAll(IDLE, events).typed == AllTyped(events)
  {
    if events != [] {
      var before, e := events[..|events| - 1], events[|events| - 1];
      var k := StrikeAll(IDLE, before);
      LinesKeepText(before);
      var c := if e.pressed then Char(e.key, Held(k.held, e)) else [];
      assert Typing(k, e) == k.typed + c;
      assert Flat(Lines(before)) + (k.typed + c) == (Flat(Lines(before)) + k.typed) + c;
      if Flushes(k, e) {
        assert Lines(events) == Lines(before) + [Typing(k, e)];
        assert Lines(events)[..|Lines(events)| - 1] == Lines(before);
        assert Flat(Lines(events)) == Flat(Lines(before)) + Typing(k, e);
        assert Flat(Lines(events)) + [] == Flat(Lines(events));
      } else {
        assert Lines(events) == Lines(before);
      }
    }
  }

  /** A line handed over ends with enter or fills the buffer, and holds no enter before its end; what is still
      in the buffer holds none and does not fill it. With LinesKeepText that leaves one way to cut the text. */
  lemma {:induction false} LinesEnd(events: seq<Event>)
    requires Real(events)
    ensures forall t :: t in Lines(events) ==>
              && 0 < |t| <= LINE && (t[|t| - 1] == ENTER || |t| == LINE)
              && forall i :: 0 <= i < |t| - 1 ==> t[i] != ENTER
    ensures var t := StrikeAll(IDLE, events).typed; |t| < LINE && ENTER !in t
  {
    if events != [] {
      var before, e := events[..|events| - 1], events[|events| - 1];
      assert forall x :: x in before ==> x in events;
      LinesEnd(before);
      EnterEnds(StrikeAll(IDLE, before), e);
    }
  }

  lemma EnterEnds(k: Desk, e: Event)
    requires |k.typed| < LINE && ENTER !in k.typed && e.key != 0
    ensures var t := Typing(k, e);
            if Flushes(k, e) then
              && 0 < |t| <= LINE && (t[|t| - 1] == ENTER || |t| == LINE)
              && forall i :: 0 <= i < |t| - 1 ==> t[i] != ENTER
            else |t| < LINE && ENTER !in t
  {
  }

  /** A line ends with enter or is as long as the buffer, and in the second case the listener gets 78
      characters without a terminator. */
  lemma ShownTerminatedIff(k: Desk, e: Event)
    requires Ok(k) && e.key != 0 && Flushes(k, e)
    ensures |Typing(k, e)| <= LINE && (e.key == ENTER ==> Typing(k, e) != [])
    ensures 0 in Shown(Typing(k, e), e.key == ENTER) <==> e.key == ENTER
    ensures var t, b := Typing(k, e), Shown(Typing(k, e), e.key == ENTER);
            if e.key == ENTER then b[..|t| - 1] == t[..|t| - 1] && b[|t| - 1] == 0 else b == t
  {
    StrikeOk(k, e);
    var t := Typing(k, e);
    var b := Shown(t, e.key == ENTER);
    if e.key == ENTER {
      assert b[|t| - 1] == 0;
    } else {
      assert b == t;
    }
  }

  // ----- whole streams -----

  lemma {:induction false} StrikeAllAppend(k: Desk, a: seq<Event>, b: seq<Event>)
    ensures StrikeAll(k, a + b) == StrikeAll(StrikeAll(k, a), b)
  {
    if b == [] {
      assert a + b == a;
    } else {
      StrikeAllAppend(k, a, b[..|b| - 1]);
      assert (a + b)[..|a + b| - 1] == a + b[..|b| - 1];
    }
  }

  /** Decoder and desk after the interrupts for these bytes. */
  function FeedAll(d: Decoder, k: Desk, bytes: seq<Byte>): (Decoder, Desk)
    decreases |bytes|
  {
    if bytes == [] then (d, k)
    else FeedAll(Decode(d, bytes[0]).decoder, StrikeAll(k, Decode(d, bytes[0]).events), bytes[1..])
  }

  lemma {:induction false} FeedIsDecode(d: Decoder, k: Desk, bytes: seq<Byte>)
    ensures var r := DecodeAll(d, bytes); FeedAll(d, k, bytes) == (r.decoder, StrikeAll(k, r.events))
    decreases |bytes|
  {
    if bytes != [] {
      var r := Decode(d, bytes[0]);
      FeedIsDecode(r.decoder, StrikeAll(k, r.events), bytes[1..]);
      StrikeAllAppend(k, r.events, DecodeAll(r.decoder, bytes[1..]).events);
    }
  }

  /** Keys and text after a stream of ordinary strokes, with any answers in between, are those of the strokes
      themselves. */
  lemma StreamsAsMeant(strokes: seq<Stroke>, bytes: seq<Byte>)
    requires forall s :: s in strokes ==> Ordinary(s)
    requires WithoutAnswers(bytes) == EncodeAll(strokes)
    ensures FeedAll(START, IDLE, bytes) == (START, StrikeAll(IDLE, Meant(strokes)))
  {
    FeedIsDecode(START, IDLE, bytes);
    AnswersPass(START, bytes);
    RoundTrip(strokes);
  }

  // ----- the class -----

  /** What the listener and the console have been given so far. */
  datatype Seen = Seen(events: seq<Event>, lines: seq<seq<nat>>, echo: seq<nat>)

  /** What an event adds to it. */
  function Report(s: Seen, k: Desk, e: Event, callback: bool): Seen
    requires |k.typed| < LINE
  {
    Seen(if callback then s.events + [e] else s.events,
         if callback && Flushes(k, e) then s.lines + [Shown(Typing(k, e), e.key == ENTER)] else s.lines,
         if e.pressed then s.echo + Char(e.key, Held(k.held, e)) else s.echo)
  }

  function ReportAll(s: Seen, k: Desk, events: seq<Event>, callback: bool): Seen
    requires Ok(k) && Real(events)
    decreases |events|
  {
    if events == [] then s
    else
      StrikeOk(k, events[0]);
      ReportAll(Report(s, k, events[0], callback), Strike(k, events[0]), events[1..], callback)
  }

  /** The lines as the listener is shown them: enter's place taken by the terminator, zeros behind. */
  function ShownAll(lines: seq<seq<nat>>): seq<seq<nat>>
    requires forall t :: t in lines ==> 0 < |t| <= LINE
  {
    if lines == [] then []
    else
      var t := lines[|lines| - 1];
      ShownAll(lines[..|lines| - 1]) + [Shown(t, t[|t| - 1] == ENTER)]
  }

  /** All that a run of events gives, if there is a listener and if not. */
  function SeenOf(events: seq<Event>, callback: bool): Seen
    requires callback ==> forall t :: t in Lines(events) ==> 0 < |t| <= LINE
  {
    Seen(if callback then events else [], if callback then ShownAll(Lines(events)) else [], AllTyped(events))
  }

  lemma SeenMore(before: seq<Event>, e: Event, callback: bool)
    requires Real(before) && e.key != 0 && |StrikeAll(IDLE, before).typed| < LINE
    requires forall t :: t in Lines(before) ==> 0 < |t| <= LINE
    requires forall t :: t in Lines(before + [e]) ==> 0 < |t| <= LINE
    ensures Report(SeenOf(before, callback), StrikeAll(IDLE, before), e, callback) == SeenOf(before + [e], callback)
  {
    hide ShownAll, Shown, Char, Flushes, Typing, Lines;
    assert (before + [e])[..|before|] == before;
    OneMoreShown(before, e);
  }

  /** A listener is told of every event and given every line, enter's place taken by the terminator; without one
      nothing is given. The console is given all that is typed in either case. */
  lemma {:induction false} SeenIs(events: seq<Event>, callback: bool)
    requires Real(events)
    ensures forall t :: t in Lines(events) ==> 0 < |t| <= LINE
    ensures ReportAll(Seen([], [], []), IDLE, events, callback)
         == Seen(if callback then events else [], if callback then ShownAll(Lines(events)) else [], AllTyped(events))
  {
    if events == [] {
      assert Lines([]) == [];
    } else {
      hide Ok, StrikeAll, Lines, ShownAll, ReportAll, Report, AllTyped;
      var before, e := events[..|events| - 1], events[|events| - 1];
      assert forall x :: x in before ==> x in events;
      assert events == before + [e];
      LinesEnd(events);
      LinesEnd(before);
      SeenIs(before, callback);
      ReportLast(Seen([], [], []), IDLE, before, e, callback);
      SeenMore(before, e, callback);
    }
  }

  lemma OneMoreShown(before: seq<Event>, e: Event)
    requires Real(before) && e.key != 0
    requires forall t :: t in Lines(before) ==> 0 < |t| <= LINE
    requires forall t :: t in Lines(before + [e]) ==> 0 < |t| <= LINE
    ensures var k := StrikeAll(IDLE, before);
            |k.typed| < LINE
            && ShownAll(Lines(before + [e]))
               == ShownAll(Lines(before)) + if Flushes(k, e) then [Shown(Typing(k, e), e.key == ENTER)] else []
  {
    var k, lines := StrikeAll(IDLE, before), Lines(before + [e]);
    assert (before + [e])[..|before|] == before;
    LinesEnd(before);
    StrikeOk(Desk(k.held, k.typed), e) by {
      StaysInBuffer(before);
    }
    if Flushes(k, e) {
      assert lines == Lines(before) + [Typing(k, e)] && lines[..|lines| - 1] == Lines(before);
      EnterTypes(k, e);
    } else {
      assert lines == Lines(before);
    }
  }

  // a line ends with enter's character exactly if enter's key ended it
  lemma EnterTypes(k: Desk, e: Event)
    requires ENTER !in k.typed && e.key != 0 && Flushes(k, e) && |k.typed| < LINE
    ensures var t := Typing(k, e); t != [] && (t[|t| - 1] == ENTER <==> e.key == ENTER)
  {
  }

  lemma {:induction false} ReportLast(s: Seen, k: Desk, before: seq<Event>, e: Event, callback: bool)
    requires Ok(k) && Real(before) && e.key != 0
    ensures Real(before + [e]) && Ok(StrikeAll(k, before)) && |StrikeAll(k, before).typed| < LINE
    ensures ReportAll(s, k, before + [e], callback)
         == Report(ReportAll(s, k, before, callback), StrikeAll(k, before), e, callback)
    decreases |before|
  {
    if before == [] {
      assert before + [e] == [e];
      OneEvent(s, k, e, callback);
    } else {
      var b, rest := before[0], before[1..];
      StrikeOk(k, b);
      ReportLast(Report(s, k, b, callback), Strike(k, b), rest, e, callback);
      assert (before + [e])[1..] == rest + [e] && before == [b] + rest;
      StrikeAllAppend(k, [b], rest);
      OneEvent(s, k, b, callback);
    }
  }

  lemma OneEvent(s: Seen, k: Desk, e: Event, callback: bool)
    requires Ok(k) && e.key != 0
    ensures StrikeAll(k, [e]) == Strike(k, e) && ReportAll(s, k, [e], callback) == Report(s, k, e, callback)
  {
    StrikeOk(k, e);
    assert [e][..0] == [] && [e][1..] == [];
    assert StrikeAll(k, [e][..0]) == k;
  }

  lemma TwoEvents(s: Seen, k: Desk, a: Event, b: Event, callback: bool)
    requires Ok(k) && a.key != 0 && b.key != 0
    ensures Ok(Strike(k, a)) && StrikeAll(k, [a, b]) == Strike(Strike(k, a), b)
    ensures ReportAll(s, k, [a, b], callback) == Report(Report(s, k, a, callback), Strike(k, a), b, callback)
  {
    StrikeOk(k, a);
    OneEvent(s, k, a, callback);
    OneEvent(Report(s, k, a, callback), Strike(k, a), b, callback);
    assert [a, b][..1] == [a] && [a, b][1..] == [b];
  }

  class Driver {
    var length: nat
    var pressed: bool
    var handled: bool
    var timesToIgnore: nat
    var key: Key
    var lbLen: nat
    const keyPressTable: array<bool>
    const lineBuffer: array<nat>
    const callback: bool
    var seen: Seen
    ghost var held: set<Key>

    function View(): Decoder
      reads this
    {
      Decoder(length, pressed, timesToIgnore)
    }

    ghost function Keys(): Desk
      reads this, lineBuffer
      requires lbLen <= lineBuffer.Length
    {
      Desk(held, lineBuffer[..lbLen])
    }

    ghost predicate Valid()
      reads this, keyPressTable, lineBuffer
    {
      Sound() && !handled
    }

    ghost predicate Sound()
      reads this, keyPressTable, lineBuffer
    {
      && lineBuffer.Length == LINE && lbLen < LINE && Ok(Keys()) && Tabled()
      && forall i :: lbLen <= i < LINE ==> lineBuffer[i] == 0
    }

    ghost predicate Tabled()
      reads this, keyPressTable
    {
      keyPressTable.Length == 256 && 0 !in held && forall k: nat :: k < 256 ==> (keyPressTable[k] <==> k in held)
    }

    constructor (callback: bool)
      ensures Valid() && View() == START && Keys() == IDLE && seen == Seen([], [], []) && this.callback == callback
      ensures fresh(keyPressTable) && fresh(lineBuffer)
    {
      length, pressed, handled, timesToIgnore, key, lbLen := 0, true, false, 0, 0, 0;
      keyPressTable := new bool[256](_ => false);
      lineBuffer := new nat[LINE](_ => 0);
      this.callback, seen, held := callback, Seen([], [], []), {};
    }

    function IsPressed(key: nat): bool
      reads this, keyPressTable
      requires key < keyPressTable.Length
    {
      keyPressTable[key]
    }

    // the character of lines 55-72: echoed, and added to the line buffer
    method Type(c: nat)
      requires lineBuffer.Length == LINE && lbLen < LINE
      modifies this`lbLen, this`seen, lineBuffer
      ensures lbLen == old(lbLen) + 1 && lineBuffer[..lbLen] == old(lineBuffer[..lbLen]) + [c]
      ensures forall i :: lbLen <= i < LINE ==> lineBuffer[i] == old(lineBuffer[i])
      ensures seen == old(seen).(echo := old(seen).echo + [c])
    {
      seen := seen.(echo := seen.echo + [c]);
      lineBuffer[lbLen] := c;
      lbLen := lbLen + 1;
    }

    method TypeKey(key: Key)
      requires Tabled() && lineBuffer.Length == LINE && lbLen < LINE
      modifies this`lbLen, this`seen, lineBuffer
      ensures lbLen == old(lbLen) + |Char(key, held)|
              && lineBuffer[..lbLen] == old(lineBuffer[..lbLen]) + Char(key, held)
      ensures forall i :: lbLen <= i < LINE ==> lineBuffer[i] == old(lineBuffer[i])
      ensures seen == old(seen).(echo := old(seen).echo + Char(key, held))
    {
      if key > 64 && key < 94 && !IsPressed(SHIFT) {
        Type(key + 32);
      } else if key > 48 && key < 58 && IsPressed(SHIFT) {
        Type(key - 16);
      } else if key != SHIFT && key != ALT && !IsPressed(if key != CONTROL then 1 else 0) {
        Type(key);
      }
    }

    method SetPressed(key: Key, pressed: bool)
      requires Sound() && key != 0
      modifies this`held, this`lbLen, this`seen, keyPressTable, lineBuffer
      ensures Sound() && Keys() == Strike(old(Keys()), Event(key, pressed))
      ensures seen == Report(old(seen), old(Keys()), Event(key, pressed), callback)
    {
      ghost var k, e := Keys(), Event(key, pressed);
      StrikeOk(k, e);
      hide Char, Shown, Ok;
      keyPressTable[key] := pressed;
      held := Held(held, e);
      if pressed {
        TypeKey(key);
      }
      assert lineBuffer[..lbLen] == Typing(k, e);
      if callback {
        seen := seen.(events := seen.events + [Event(key, pressed)]);
      }
      if (key == ENTER || lbLen == LINE) && pressed {
        Flush(key, Typing(k, e));
      }
    }

    // lines 86-94
    method Flush(key: Key, ghost t: seq<nat>)
      requires lineBuffer.Length == LINE && lbLen <= LINE && lineBuffer[..lbLen] == t && (key == ENTER ==> lbLen > 0)
      requires forall i :: lbLen <= i < LINE ==> lineBuffer[i] == 0
      modifies this`lbLen, this`seen, lineBuffer
      ensures lbLen == 0 && forall i :: 0 <= i < LINE ==> lineBuffer[i] == 0
      ensures seen == if callback then old(seen).(lines := old(seen).lines + [Shown(t, key == ENTER)]) else old(seen)
    {
      if callback {
        if key == ENTER {
          lineBuffer[lbLen - 1] := 0;
        }
        assert lineBuffer[..] == Shown(t, key == ENTER);
        seen := seen.(lines := seen.lines + [lineBuffer[..]]);
      }
      ghost var given := seen;
      var i := 0;
      while i < LINE
        invariant 0 <= i <= LINE && seen == given && forall j :: 0 <= j < i ==> lineBuffer[j] == 0
      {
        lineBuffer[i] := 0;
        i := i + 1;
      }
      lbLen := 0;
    }

    /** handleKeyboardEvent: the bits of port 0x64, and the byte port 0x60 has if the lowest is set. */
    method HandleKeyboardEvent(status: Byte, scancode: Byte)
      requires Valid()
      modifies this, keyPressTable, lineBuffer
      ensures Valid()
      ensures status % 2 == 0 ==> View() == old(View()) && Keys() == old(Keys()) && seen == old(seen)
      ensures status % 2 == 1 ==>
                var r := Decode(old(View()), scancode);
                && View() == r.decoder
                && Keys() == StrikeAll(old(Keys()), r.events)
                && Real(r.events) && seen == ReportAll(old(seen), old(Keys()), r.events, callback)
    {
      hide KeyOf, Strike, Report, Ok, Shown, Char;
      ghost var k, s := Keys(), seen;
      ghost var events := Decode(View(), scancode).events;
      if status % 2 == 1 {
        if |events| == 1 {
          OneEvent(s, k, events[0], callback);
        } else if |events| == 2 {
          TwoEvents(s, k, events[0], events[1], callback);
        }
        if scancode == 0xFA || scancode == 0xFE {
          return;
        }
        if timesToIgnore > 0 {
          timesToIgnore := timesToIgnore - 1;
        } else if length == 0 && scancode == 0xE1 {
          timesToIgnore := 7;
          key := PAUSE;
          SetPressed(key, true);
          pressed := false;
          handled := true;
        } else if length == 1 && scancode == 0x12 && pressed {
          timesToIgnore := 2;
          key := PRINTSCREEN;
          handled := true;
        } else if length == 2 && scancode == 0x7C && !pressed {
          timesToIgnore := 3;
          key := PRINTSCREEN;
          handled := true;
        } else if scancode == 0xF0 {
          pressed := false;
        } else if scancode == 0xE0 {
        } else if KeyOf(scancode) != 0 {
          key := KeyOf(scancode);
          handled := true;
        }
        length := length + 1;
      }
      if handled {
        SetPressed(key, pressed);
        length := 0;
        pressed := true;
        handled := false;
      }
    }
  }
}
