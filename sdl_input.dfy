/** Input translation in sdl_input.c: the console-key table, the UTF-8 to
    UTF-32 conversion of text-input events, and the joystick's edge detection
    for buttons and axes. SDL itself and the event queue are outside the model:
    what SDL reports is a parameter and the queued events are a result. */
module SdlInput {
  import opened QShared

  const MAX_CONSOLE_KEYS: int := 16
  const MAX_JOYSTICK_AXIS: int := 16

  /** A key of the event queue: K_JOY1 + n, joy_keys[n], or K_CONSOLE. */
  datatype KeyCode = JoyButton(n: nat) | AxisKey(n: nat) | Console

  /** What Com_QueueEvent is handed: SE_KEY, SE_JOYSTICK_AXIS or SE_CHAR. */
  datatype Event = Key(code: KeyCode, down: bool) | JoystickAxis(axis: nat, value: int) | Char(cp: int)

  // ---------------------------------------------------------------------------
  // IN_IsConsoleKey

  /** An entry of the console-key table. */
  datatype ConsoleKey = QuakeKey(key: int) | Character(ch: int)

  /** The table parsed from the tokens of cl_consoleKeys, continuing at token
      i with acc already parsed. A four-character token whose hexadecimal value
      (Com_HexStrToInt, given as hex) is positive becomes a character; any other
      token becomes a key when Key_StringToKeynum (given as keynum) is
      positive, and is dropped otherwise. */
  function ParseKeys(tokens: seq<string>, i: nat, acc: seq<ConsoleKey>, hex: string -> int, keynum: string -> int): seq<ConsoleKey>
    requires i <= |tokens|
    decreases |tokens| - i
  {
    if |acc| >= MAX_CONSOLE_KEYS || i == |tokens| || tokens[i] == [] then acc
    else
      var charCode := if |tokens[i]| == 4 then hex(tokens[i]) else 0;
      if charCode > 0 then ParseKeys(tokens, i + 1, acc + [Character(charCode)], hex, keynum)
      else if keynum(tokens[i]) <= 0 then ParseKeys(tokens, i + 1, acc, hex, keynum)
      else ParseKeys(tokens, i + 1, acc + [QuakeKey(keynum(tokens[i]))], hex, keynum)
  }

  /** Every character entry comes from a four-character token with that
      positive hexadecimal value, and the table never holds more than
      MAX_CONSOLE_KEYS entries. */
  predicate TableFrom(keys: seq<ConsoleKey>, tokens: seq<string>, hex: string -> int) {
    |keys| <= MAX_CONSOLE_KEYS
    && forall k :: 0 <= k < |keys| && keys[k].Character? ==>
         keys[k].ch > 0 && exists j :: 0 <= j < |tokens| && |tokens[j]| == 4 && hex(tokens[j]) == keys[k].ch
  }

  lemma {:induction false} ParseKeysTable(tokens: seq<string>, i: nat, acc: seq<ConsoleKey>, hex: string -> int, keynum: string -> int)
    requires i <= |tokens| && TableFrom(acc, tokens, hex)
    ensures TableFrom(ParseKeys(tokens, i, acc, hex, keynum), tokens, hex)
    decreases |tokens| - i
  {
    if !(|acc| >= MAX_CONSOLE_KEYS || i == |tokens| || tokens[i] == []) {
      var charCode := if |tokens[i]| == 4 then hex(tokens[i]) else 0;
      if charCode > 0 {
        var next := acc + [Character(charCode)];
        forall k | 0 <= k < |next| && next[k].Character?
          ensures next[k].ch > 0 && exists j :: 0 <= j < |tokens| && |tokens[j]| == 4 && hex(tokens[j]) == next[k].ch
        {
          if k == |acc| {
            assert |tokens[i]| == 4 && hex(tokens[i]) == next[k].ch;
          } else {
            assert next[k] == acc[k];
          }
        }
        ParseKeysTable(tokens, i + 1, next, hex, keynum);
      } else if keynum(tokens[i]) <= 0 {
        ParseKeysTable(tokens, i + 1, acc, hex, keynum);
      } else {
        var next := acc + [QuakeKey(keynum(tokens[i]))];
        assert forall k :: 0 <= k < |acc| ==> next[k] == acc[k];
        ParseKeysTable(tokens, i + 1, next, hex, keynum);
      }
    }
  }

  /** IN_IsConsoleKey once the table is parsed: with the QUAKE_KEY case
      compiled out, only a character entry equal to character matches. */
  predicate IsConsoleKey(keys: seq<ConsoleKey>, key: int, character: int) {
    exists k :: 0 <= k < |keys| && keys[k] == Character(character)
  }

  /** No key alone, without a character, is ever a console key: a table parsed
      from any tokens holds no character 0. */
  lemma KeyAloneNeverConsole(tokens: seq<string>, hex: string -> int, keynum: string -> int, key: int)
    ensures !IsConsoleKey(ParseKeys(tokens, 0, [], hex, keynum), key, 0)
  {
    ParseKeysTable(tokens, 0, [], hex, keynum);
  }

  /** The static table of IN_IsConsoleKey. */
  class ConsoleKeyTable {
    var keys: seq<ConsoleKey>

    constructor ()
      ensures keys == []
    {
      keys := [];
    }

    /** IN_IsConsoleKey: re-parses the table when cl_consoleKeys has been
        modified, then looks the character up. The key is cleared when it
        equals the character, which only the compiled-out QUAKE_KEY case
        would read. */
    method IsConsole(modified: bool, tokens: seq<string>, hex: string -> int, keynum: string -> int, key: int, character: int)
      returns (r: bool)
      modifies this
      ensures keys == if modified then ParseKeys(tokens, 0, [], hex, keynum) else old(keys)
      ensures r <==> IsConsoleKey(keys, key, character)
    {
      if modified {
        var parsed: seq<ConsoleKey> := [];
        var i := 0;
        while |parsed| < MAX_CONSOLE_KEYS
          invariant 0 <= i <= |tokens|
          invariant ParseKeys(tokens, i, parsed, hex, keynum) == ParseKeys(tokens, 0, [], hex, keynum)
          decreases |tokens| - i
        {
          if i == |tokens| || tokens[i] == [] {
            break;
          }
          var token := tokens[i];
          i := i + 1;
          var charCode := 0;
          if |token| == 4 {
            charCode := hex(token);
          }
          if charCode > 0 {
            parsed := parsed + [Character(charCode)];
          } else {
            var k := keynum(token);
            if k <= 0 {
              continue;
            }
            parsed := parsed + [QuakeKey(k)];
          }
        }
        keys := parsed;
      }
      var n := 0;
      while n < |keys|
        invariant 0 <= n <= |keys|
        invariant forall k :: 0 <= k < n ==> keys[k] != Character(character)
      {
        if keys[n].Character? && keys[n].ch == character {
          return true;
        }
        n := n + 1;
      }
      return false;
    }
  }

  // ---------------------------------------------------------------------------
  // UTF-8 to UTF-32 in IN_ProcessEvents
  //
  // The conversion masks and shifts bytes. On a byte b, b & (2^k - 1) is
  // b % 2^k and a left shift by k is a product with 2^k; fields that occupy
  // different bits are ORed, which is their sum. The one OR of two fields
  // that share bits (the four-byte case) is written out as BitOr.

  type Byte = b: int | 0 <= b < 256

  /** The byte at i of the event's text; the text ends at its first NUL and
      anything past the modelled buffer reads as NUL. */
  function At(text: seq<Byte>, i: nat): Byte {
    if i < |text| then text[i] else 0
  }

  /** Bitwise OR of two naturals. */
  function BitOr(a: nat, b: nat): nat
    decreases a + b
  {
    if a == 0 then b
    else if b == 0 then a
    else 2 * BitOr(a / 2, b / 2) + (if a % 2 == 1 || b % 2 == 1 then 1 else 0)
  }

  function Pow2(n: nat): (r: nat)
    ensures r >= 1
  {
    if n == 0 then 1 else 2 * Pow2(n - 1)
  }

  /** ORing two n-bit values gives an n-bit value. */
  lemma {:induction false} BitOrBelow(a: nat, b: nat, n: nat)
    requires a < Pow2(n) && b < Pow2(n)
    ensures BitOr(a, b) < Pow2(n)
    decreases a + b
  {
    if a != 0 && b != 0 {
      assert n > 0;
      BitOrBelow(a / 2, b / 2, n - 1);
    }
  }

  /** One step of the conversion as written, on the lead byte and the three
      bytes after it: the value and how many bytes it takes. A four-byte lead
      ORs its first continuation byte in at bit 6 instead of bit 12; an
      unrecognised lead is skipped and yields 0. The masks give the same bits
      whether char is signed or not. */
  function Combine(b0: Byte, b1: Byte, b2: Byte, b3: Byte): (r: (int, nat))
    ensures 1 <= r.1 <= 4
  {
    if b0 < 0x80 then (b0, 1)
    else if 0xC0 <= b0 < 0xE0 then ((b0 % 32) * 64 + b1 % 64, 2)
    else if 0xE0 <= b0 < 0xF0 then ((b0 % 16) * 4096 + (b1 % 64) * 64 + b2 % 64, 3)
    else if 0xF0 <= b0 < 0xF8 then ((b0 % 8) * 262144 + BitOr(b1 % 64, b2 % 64) * 64 + b3 % 64, 4)
    else (0, 1)
  }

  /** The same step with the four-byte case shifting its first continuation
      byte by 12, as section 3 of RFC 3629 lays the bits out. */
  function CombineRfc(b0: Byte, b1: Byte, b2: Byte, b3: Byte): (r: (int, nat))
    ensures 1 <= r.1 <= 4
  {
    if 0xF0 <= b0 < 0xF8 then ((b0 % 8) * 262144 + (b1 % 64) * 4096 + (b2 % 64) * 64 + b3 % 64, 4)
    else Combine(b0, b1, b2, b3)
  }

  /** The step as written at pos of the text. */
  function DecodeAt(text: seq<Byte>, pos: nat): (r: (int, nat))
    ensures pos + 1 <= r.1 <= pos + 4
  {
    var c := Combine(At(text, pos), At(text, pos + 1), At(text, pos + 2), At(text, pos + 3));
    (c.0, pos + c.1)
  }

  /** The corrected step at pos of the text. */
  function DecodeRfcAt(text: seq<Byte>, pos: nat): (r: (int, nat))
    ensures pos + 1 <= r.1 <= pos + 4
    ensures r.0 >= 0
  {
    var c := CombineRfc(At(text, pos), At(text, pos + 1), At(text, pos + 2), At(text, pos + 3));
    (c.0, pos + c.1)
  }

  /** Unicode scalar values: at most U+10FFFF and not a surrogate. */
  predicate Scalar(cp: int) {
    0 <= cp <= 0x10FFFF && !(0xD800 <= cp <= 0xDFFF)
  }

  /** The six-bit groups of a value, lowest first, and what lies above them. */
  function Lo(cp: nat): nat { cp % 64 }
  function Mid(cp: nat): nat { (cp / 64) % 64 }
  function Hi(cp: nat): nat { (cp / 64 / 64) % 64 }
  function Top(cp: nat): nat { cp / 64 / 64 / 64 }

  lemma Digits(cp: nat)
    ensures cp == Top(cp) * 262144 + Hi(cp) * 4096 + Mid(cp) * 64 + Lo(cp)
    ensures Lo(cp) < 64 && Mid(cp) < 64 && Hi(cp) < 64
    ensures cp < 0x800 ==> cp / 64 == Mid(cp) + 64 * Hi(cp) && Hi(cp) == 0 && Top(cp) == 0
    ensures cp < 0x10000 ==> cp / 4096 == Hi(cp) && Top(cp) == 0
    ensures cp <= 0x10FFFF ==> Top(cp) <= 4
  {
    var q1 := cp / 64;
    var q2 := q1 / 64;
    assert cp == q1 * 64 + Lo(cp);
    assert q1 == q2 * 64 + Mid(cp);
    assert q2 == Top(cp) * 64 + Hi(cp);
  }

  /** The UTF-8 encoding of section 3 of RFC 3629. */
  function Encode(cp: int): (r: seq<Byte>)
    requires Scalar(cp)
    ensures |r| == if cp < 0x80 then 1 else if cp < 0x800 then 2 else if cp < 0x10000 then 3 else 4
  {
    Digits(cp);
    if cp < 0x80 then [cp]
    else if cp < 0x800 then [0xC0 + cp / 64, 0x80 + Lo(cp)]
    else if cp < 0x10000 then [0xE0 + Hi(cp), 0x80 + Mid(cp), 0x80 + Lo(cp)]
    else [0xF0 + Top(cp), 0x80 + Hi(cp), 0x80 + Mid(cp), 0x80 + Lo(cp)]
  }

  /** A continuation byte keeps its six bits under the mask. */
  lemma Low6(x: int)
    requires 0 <= x < 64
    ensures (0x80 + x) % 64 == x
  {
  }

  lemma TwoBytes(cp: int, b2: Byte, b3: Byte)
    requires 0x80 <= cp < 0x800
    ensures Combine(0xC0 + cp / 64, 0x80 + Lo(cp), b2, b3) == (cp, 2)
    ensures CombineRfc(0xC0 + cp / 64, 0x80 + Lo(cp), b2, b3) == (cp, 2)
  {
    Digits(cp);
    Low6(Lo(cp));
    assert (0xC0 + cp / 64) % 32 == cp / 64;
  }

  lemma ThreeBytes(cp: int, b3: Byte)
    requires 0x800 <= cp < 0x10000
    ensures Combine(0xE0 + Hi(cp), 0x80 + Mid(cp), 0x80 + Lo(cp), b3) == (cp, 3)
    ensures CombineRfc(0xE0 + Hi(cp), 0x80 + Mid(cp), 0x80 + Lo(cp), b3) == (cp, 3)
  {
    Digits(cp);
    Low6(Lo(cp));
    Low6(Mid(cp));
    assert (0xE0 + Hi(cp)) % 16 == Hi(cp);
  }

  lemma FourBytes(cp: int)
    requires 0x10000 <= cp <= 0x10FFFF
    ensures CombineRfc(0xF0 + Top(cp), 0x80 + Hi(cp), 0x80 + Mid(cp), 0x80 + Lo(cp)) == (cp, 4)
    ensures Combine(0xF0 + Top(cp), 0x80 + Hi(cp), 0x80 + Mid(cp), 0x80 + Lo(cp)).1 == 4
    ensures Combine(0xF0 + Top(cp), 0x80 + Hi(cp), 0x80 + Mid(cp), 0x80 + Lo(cp)).0 == cp <==> Hi(cp) == 0
  {
    Digits(cp);
    Low6(Lo(cp));
    Low6(Mid(cp));
    Low6(Hi(cp));
    assert (0xF0 + Top(cp)) % 8 == Top(cp);
    assert Pow2(6) == 64;
    BitOrBelow(Hi(cp), Mid(cp), 6);
  }

  /** A byte with the high bit clear is its own value and takes one byte. */
  lemma AsciiByte(text: seq<Byte>, pos: nat)
    requires At(text, pos) < 0x80
    ensures DecodeAt(text, pos) == (At(text, pos), pos + 1)
    ensures DecodeRfcAt(text, pos) == DecodeAt(text, pos)
  {
  }

  /** A lead byte that starts no sequence (a continuation byte, or 0xF8 and
      above) is skipped and yields nothing. */
  lemma InvalidLeadSkipped(text: seq<Byte>, pos: nat)
    requires 0x80 <= At(text, pos) < 0xC0 || At(text, pos) >= 0xF8
    ensures DecodeAt(text, pos) == (0, pos + 1)
    ensures DecodeRfcAt(text, pos) == (0, pos + 1)
  {
  }

  /** The bytes of an encoding are the first bytes of the text it starts. */
  lemma AtEncode(cp: int, rest: seq<Byte>)
    requires Scalar(cp)
    ensures forall k :: 0 <= k < |Encode(cp)| ==> At(Encode(cp) + rest, k) == Encode(cp)[k]
  {
  }

  /** As written, every one-, two- and three-byte sequence reads back, and
      the corrected step agrees with it there. */
  lemma DecodeEncodeShort(cp: int, rest: seq<Byte>)
    requires Scalar(cp) && cp < 0x10000
    ensures DecodeAt(Encode(cp) + rest, 0) == (cp, |Encode(cp)|)
    ensures DecodeRfcAt(Encode(cp) + rest, 0) == DecodeAt(Encode(cp) + rest, 0)
  {
    AtEncode(cp, rest);
    var t := Encode(cp) + rest;
    if 0x80 <= cp < 0x800 {
      TwoBytes(cp, At(t, 2), At(t, 3));
    } else if 0x800 <= cp {
      ThreeBytes(cp, At(t, 3));
    }
  }

  /** Corrected decoding reads back every encoded scalar value. */
  lemma DecodeEncodeRfc(cp: int, rest: seq<Byte>)
    requires Scalar(cp)
    ensures DecodeRfcAt(Encode(cp) + rest, 0) == (cp, |Encode(cp)|)
  {
    if cp < 0x10000 {
      DecodeEncodeShort(cp, rest);
    } else {
      AtEncode(cp, rest);
      FourBytes(cp);
    }
  }

  /** As written, a four-byte sequence reads back exactly when bits 12..17 of
      the value are clear; otherwise those bits are lost. */
  lemma DecodeEncodeFourByte(cp: int, rest: seq<Byte>)
    requires Scalar(cp) && cp >= 0x10000
    ensures DecodeAt(Encode(cp) + rest, 0).1 == 4
    ensures DecodeAt(Encode(cp) + rest, 0).0 == cp <==> Hi(cp) == 0
  {
    AtEncode(cp, rest);
    FourBytes(cp);
  }

  lemma BitOrExample()
    ensures BitOr(31, 24) == 31
  {
    assert BitOr(1, 1) == 1;
    assert BitOr(3, 3) == 3;
    assert BitOr(7, 6) == 7;
    assert BitOr(15, 12) == 15;
  }

  /** The 6-bit groups of U+1F600. */
  lemma EmojiDigits()
    ensures Lo(0x1F600) == 0 && Mid(0x1F600) == 24 && Hi(0x1F600) == 31 && Top(0x1F600) == 0
  {
  }

  /** The corrected step on the bytes of U+1F600. */
  lemma EmojiCombineRfc()
    ensures CombineRfc(0xF0, 0x9F, 0x98, 0x80) == (0x1F600, 4)
  {
  }

  /** The as-written step on the bytes of U+1F600. */
  lemma EmojiCombine()
    ensures Combine(0xF0, 0x9F, 0x98, 0x80) == (0x7C0, 4)
  {
    var b1, b2 := 0x9F % 64, 0x98 % 64;
    assert b1 == 31 && b2 == 24;
    BitOrExample();
    assert BitOr(b1, b2) == 31;
  }

  /** U+1F600, F0 9F 98 80, comes out as U+07C0 as written. */
  lemma FourByteMisdecoded()
    ensures DecodeAt([0xF0, 0x9F, 0x98, 0x80], 0) == (0x7C0, 4)
    ensures DecodeRfcAt([0xF0, 0x9F, 0x98, 0x80], 0) == (0x1F600, 4)
    ensures Encode(0x1F600) == [0xF0, 0x9F, 0x98, 0x80]
  {
    var text: seq<Byte> := [0xF0, 0x9F, 0x98, 0x80];
    assert At(text, 0) == 0xF0 && At(text, 1) == 0x9F && At(text, 2) == 0x98 && At(text, 3) == 0x80;
    EmojiCombine();
    EmojiCombineRfc();
    EmojiDigits();
  }

  /** The values of the text from pos on, in order, without the zeros that
      are never queued. */
  function Utf32s(text: seq<Byte>, pos: nat): (r: seq<int>)
    ensures forall k :: 0 <= k < |r| ==> r[k] > 0
    decreases |text| + 4 - pos
  {
    if At(text, pos) == 0 then []
    else
      var step := DecodeRfcAt(text, pos);
      (if step.0 != 0 then [step.0] else []) + Utf32s(text, step.1)
  }

  /** The encoding of a sequence of values, one after the other. */
  function EncodeAll(cps: seq<int>): seq<Byte>
    requires forall k :: 0 <= k < |cps| ==> Scalar(cps[k])
  {
    if cps == [] then [] else Encode(cps[0]) + EncodeAll(cps[1..])
  }

  /** Utf32s reads only the bytes from its position on. */
  lemma {:induction false} Utf32sShift(text: seq<Byte>, k: nat, tail: seq<Byte>)
    requires k <= |text| && text[k..] == tail
    ensures Utf32s(text, k) == Utf32s(tail, 0)
    decreases |text| + 4 - k
  {
    assert forall j :: j >= 0 ==> At(text, k + j) == At(tail, j);
    if At(text, k) != 0 {
      var s := DecodeRfcAt(text, k);
      var t := DecodeRfcAt(tail, 0);
      assert s == (t.0, k + t.1);
      if s.1 <= |text| {
        Utf32sShift(text, s.1, tail[t.1..]);
        Utf32sShift(tail, t.1, tail[t.1..]);
      } else {
        assert At(text, s.1) == 0 && At(tail, t.1) == 0;
      }
    }
  }

  /** Text made of encoded non-zero scalar values converts back to them. */
  lemma {:induction false} Utf32sRoundTrip(cps: seq<int>)
    requires forall k :: 0 <= k < |cps| ==> Scalar(cps[k]) && cps[k] != 0
    ensures Utf32s(EncodeAll(cps), 0) == cps
  {
    if cps != [] {
      var e := Encode(cps[0]);
      var rest := EncodeAll(cps[1..]);
      var text := e + rest;
      DecodeEncodeRfc(cps[0], rest);
      AtEncode(cps[0], rest);
      assert At(text, 0) == e[0] != 0;
      assert text[|e|..] == rest;
      Utf32sShift(text, |e|, rest);
      Utf32sRoundTrip(cps[1..]);
      assert cps == [cps[0]] + cps[1..];
    }
  }

  /** The events queued for values: a console key is queued as K_CONSOLE down
      and up, any other value as a character. */
  function EventsFor(keys: seq<ConsoleKey>, cps: seq<int>): seq<Event>
  {
    if cps == [] then []
    else EventsFor(keys, cps[..|cps| - 1]) + EventFor(keys, cps[|cps| - 1])
  }

  function EventFor(keys: seq<ConsoleKey>, cp: int): seq<Event> {
    if IsConsoleKey(keys, 0, cp) then [Key(Console, true), Key(Console, false)] else [Char(cp)]
  }

  /** Each value gives its own events, in order. */
  lemma {:induction false} EventsForAppend(keys: seq<ConsoleKey>, a: seq<int>, b: seq<int>)
    ensures EventsFor(keys, a + b) == EventsFor(keys, a) + EventsFor(keys, b)
    decreases |b|
  {
    if b == [] {
      assert a + b == a;
    } else {
      var b' := b[..|b| - 1];
      assert (a + b)[..|a + b| - 1] == a + b';
      EventsForAppend(keys, a, b');
    }
  }

  /** The SDL_TEXTINPUT case of IN_ProcessEvents, with the corrected
      four-byte step: nothing while the console key is held, otherwise the
      events of each non-zero value of the text. */
  method TextInput(text: seq<Byte>, consoleHeld: bool, keys: seq<ConsoleKey>) returns (events: seq<Event>)
    ensures consoleHeld ==> events == []
    ensures !consoleHeld ==> events == EventsFor(keys, Utf32s(text, 0))
  {
    events := [];
    if consoleHeld {
      return;
    }
    var pos := 0;
    ghost var done: seq<int> := [];
    while At(text, pos) != 0
      invariant done + Utf32s(text, pos) == Utf32s(text, 0)
      invariant events == EventsFor(keys, done)
      decreases |text| + 4 - pos
    {
      var utf32, next := DecodeStep(text, pos);
      TextStep(text, pos, done, keys);
      if utf32 != 0 {
        events := events + EventFor(keys, utf32);
        done := done + [utf32];
      }
      pos := next;
    }
    assert done + [] == done;
  }

  /** One turn of the conversion loop keeps its invariant. */
  lemma TextStep(text: seq<Byte>, pos: nat, done: seq<int>, keys: seq<ConsoleKey>)
    requires At(text, pos) != 0 && done + Utf32s(text, pos) == Utf32s(text, 0)
    ensures var s := DecodeRfcAt(text, pos);
      var done' := if s.0 != 0 then done + [s.0] else done;
      done' + Utf32s(text, s.1) == Utf32s(text, 0)
      && EventsFor(keys, done') == EventsFor(keys, done) + (if s.0 != 0 then EventFor(keys, s.0) else [])
  {
    var s := DecodeRfcAt(text, pos);
    if s.0 != 0 {
      assert Utf32s(text, pos) == [s.0] + Utf32s(text, s.1);
      ConcatAssoc(done, [s.0], Utf32s(text, s.1));
      EventsForAppend(keys, done, [s.0]);
      assert [s.0][..0] == [];
    }
  }

  /** The loop body of the conversion, reading the sequence byte by byte. */
  method DecodeStep(text: seq<Byte>, pos: nat) returns (utf32: int, next: nat)
    ensures (utf32, next) == DecodeRfcAt(text, pos)
  {
    var c: int := At(text, pos);
    utf32 := 0;
    next := pos + 1;
    if c < 0x80 {
      utf32 := c;
    } else if 0xC0 <= c < 0xE0 {
      utf32 := utf32 + (c % 32) * 64;
      utf32 := utf32 + At(text, next) % 64;
      next := next + 1;
    } else if 0xE0 <= c < 0xF0 {
      utf32 := utf32 + (c % 16) * 4096;
      utf32 := utf32 + (At(text, next) % 64) * 64;
      utf32 := utf32 + At(text, next + 1) % 64;
      next := next + 2;
    } else if 0xF0 <= c < 0xF8 {
      utf32 := utf32 + (c % 8) * 262144;
      utf32 := utf32 + (At(text, next) % 64) * 4096;
      utf32 := utf32 + (At(text, next + 1) % 64) * 64;
      utf32 := utf32 + At(text, next + 2) % 64;
      next := next + 3;
    }
  }

  /** The values the conversion as written queues from pos on: the same loop
      with the four-byte step of Combine. */
  function Utf32sAsWritten(text: seq<Byte>, pos: nat): (r: seq<int>)
    ensures forall k :: 0 <= k < |r| ==> r[k] != 0
    decreases |text| + 4 - pos
  {
    if At(text, pos) == 0 then []
    else
      var step := DecodeAt(text, pos);
      (if step.0 != 0 then [step.0] else []) + Utf32sAsWritten(text, step.1)
  }

  /** Text without four-byte leads converts the same as written and
      corrected: the defect lies in the four-byte step alone. */
  lemma {:induction false} AsWrittenAgrees(text: seq<Byte>, pos: nat)
    requires forall i :: 0 <= i < |text| ==> !(0xF0 <= text[i] < 0xF8)
    ensures Utf32sAsWritten(text, pos) == Utf32s(text, pos)
    decreases |text| + 4 - pos
  {
    if At(text, pos) != 0 {
      assert DecodeAt(text, pos) == DecodeRfcAt(text, pos);
      AsWrittenAgrees(text, DecodeRfcAt(text, pos).1);
    }
  }

  /** A text holding only U+1F600 queues U+07C0 as written and U+1F600
      corrected. */
  lemma EmojiTextMisread()
    ensures Utf32sAsWritten([0xF0, 0x9F, 0x98, 0x80], 0) == [0x7C0]
    ensures Utf32s([0xF0, 0x9F, 0x98, 0x80], 0) == [0x1F600]
  {
    var text: seq<Byte> := [0xF0, 0x9F, 0x98, 0x80];
    assert At(text, 0) == 0xF0 && At(text, 1) == 0x9F && At(text, 2) == 0x98 && At(text, 3) == 0x80;
    EmojiCombine();
    EmojiCombineRfc();
    OneValueText(text);
  }

  /** A four-byte text that ends after its first step queues that step's
      value, as written and corrected. */
  lemma OneValueText(text: seq<Byte>)
    requires |text| == 4 && text[0] != 0
    ensures var w := DecodeAt(text, 0);
      w.1 == 4 && w.0 != 0 ==> Utf32sAsWritten(text, 0) == [w.0]
    ensures var c := DecodeRfcAt(text, 0);
      c.1 == 4 && c.0 != 0 ==> Utf32s(text, 0) == [c.0]
  {
    assert At(text, 0) != 0 && At(text, 4) == 0;
    assert Utf32sAsWritten(text, 4) == [] && Utf32s(text, 4) == [];
  }

  /** The SDL_TEXTINPUT case as written: nothing while the console key is
      held, otherwise the events of each non-zero value the as-written steps
      produce. */
  method TextInputAsWritten(text: seq<Byte>, consoleHeld: bool, keys: seq<ConsoleKey>) returns (events: seq<Event>)
    ensures consoleHeld ==> events == []
    ensures !consoleHeld ==> events == EventsFor(keys, Utf32sAsWritten(text, 0))
  {
    events := [];
    if consoleHeld {
      return;
    }
    var pos := 0;
    ghost var done: seq<int> := [];
    while At(text, pos) != 0
      invariant done + Utf32sAsWritten(text, pos) == Utf32sAsWritten(text, 0)
      invariant events == EventsFor(keys, done)
      decreases |text| + 4 - pos
    {
      var utf32, next := DecodeStepAsWritten(text, pos);
      TextStepAsWritten(text, pos, done, keys);
      if utf32 != 0 {
        events := events + EventFor(keys, utf32);
        done := done + [utf32];
      }
      pos := next;
    }
    assert done + [] == done;
  }

  /** One turn of the as-written loop keeps its invariant. */
  lemma TextStepAsWritten(text: seq<Byte>, pos: nat, done: seq<int>, keys: seq<ConsoleKey>)
    requires At(text, pos) != 0 && done + Utf32sAsWritten(text, pos) == Utf32sAsWritten(text, 0)
    ensures var s := DecodeAt(text, pos);
      var done' := if s.0 != 0 then done + [s.0] else done;
      done' + Utf32sAsWritten(text, s.1) == Utf32sAsWritten(text, 0)
      && EventsFor(keys, done') == EventsFor(keys, done) + (if s.0 != 0 then EventFor(keys, s.0) else [])
  {
    var s := DecodeAt(text, pos);
    if s.0 != 0 {
      assert Utf32sAsWritten(text, pos) == [s.0] + Utf32sAsWritten(text, s.1);
      ConcatAssoc(done, [s.0], Utf32sAsWritten(text, s.1));
      EventsForAppend(keys, done, [s.0]);
      assert [s.0][..0] == [];
    }
  }

  /** The loop body as written: the four-byte case ORs both of the first two
      continuation bytes in at bit 6. */
  method DecodeStepAsWritten(text: seq<Byte>, pos: nat) returns (utf32: int, next: nat)
    ensures (utf32, next) == DecodeAt(text, pos)
  {
    var c: int := At(text, pos);
    utf32 := 0;
    next := pos + 1;
    if c < 0x80 {
      utf32 := c;
    } else if 0xC0 <= c < 0xE0 {
      utf32 := utf32 + (c % 32) * 64;
      utf32 := utf32 + At(text, next) % 64;
      next := next + 1;
    } else if 0xE0 <= c < 0xF0 {
      utf32 := utf32 + (c % 16) * 4096;
      utf32 := utf32 + (At(text, next) % 64) * 64;
      utf32 := utf32 + At(text, next + 1) % 64;
      next := next + 2;
    } else if 0xF0 <= c < 0xF8 {
      utf32 := utf32 + (c % 8) * 262144;
      utf32 := utf32 + BitOr(At(text, next) as int % 64, At(text, next + 1) as int % 64) * 64;
      utf32 := utf32 + At(text, next + 2) % 64;
      next := next + 3;
    }
  }

  // ---------------------------------------------------------------------------
  // IN_JoyMove

  /** The number of buttons, and of axes, that stick_state keeps. */
  const STICK_SLOTS: int := 16

  function Min(a: int, b: int): int {
    if a < b then a else b
  }

  /** Where an axis stands against in_joystickThreshold: past it on the
      negative side, within it, or past it on the positive side. The float
      division by 32767 and the comparison are abstracted into this. */
  datatype Tilt = Negative | Centred | Positive

  /** What SDL reports for one axis: its Sint16 position, whether its
      magnitude is below the threshold (the analog dead zone) and its tilt. */
  datatype AxisReading = AxisReading(position: int, quiet: bool, tilt: Tilt)

  /** The analog value sent for an axis: 0 inside the dead zone. */
  function Level(r: AxisReading): int {
    if r.quiet then 0 else r.position
  }

  // Buttons

  /** The events for the first n buttons: K_JOY1 + i with the new state
      wherever it differs from the remembered one. */
  function ButtonEvents(held: seq<bool>, pressed: seq<bool>, n: nat): seq<Event>
    requires n <= |held| && n <= |pressed|
  {
    if n == 0 then
      []
    else
      ButtonEvents(held, pressed, n - 1)
      + (if pressed[n - 1] != held[n - 1] then [Key(JoyButton(n - 1), pressed[n - 1])] else [])
  }

  /** The remembered button states once the first n have been polled. */
  function ButtonsAfter(held: seq<bool>, pressed: seq<bool>, n: nat): (r: seq<bool>)
    ensures |r| == |held|
  {
    seq(|held|, k requires 0 <= k < |held| => if k < n && k < |pressed| then pressed[k] else held[k])
  }

  /** A button event is queued exactly for a polled button whose state
      changed, and it carries the new state. */
  lemma {:induction false} ButtonEventsIff(held: seq<bool>, pressed: seq<bool>, n: nat, i: nat, down: bool)
    requires n <= |held| && n <= |pressed|
    ensures Key(JoyButton(i), down) in ButtonEvents(held, pressed, n)
      <==> i < n && pressed[i] != held[i] && down == pressed[i]
  {
    if n > 0 {
      ButtonEventsIff(held, pressed, n - 1, i, down);
    }
  }

  /** Only button events are queued, at most one per polled button. */
  lemma {:induction false} ButtonEventsBound(held: seq<bool>, pressed: seq<bool>, n: nat)
    requires n <= |held| && n <= |pressed|
    ensures |ButtonEvents(held, pressed, n)| <= n
    ensures forall e :: e in ButtonEvents(held, pressed, n) ==> e.Key? && e.code.JoyButton?
  {
    if n > 0 {
      ButtonEventsBound(held, pressed, n - 1);
    }
  }

  /** Polling the same buttons again queues nothing: the remembered states
      now agree with the readings. */
  lemma {:induction false} ButtonsSettle(held: seq<bool>, pressed: seq<bool>, n: nat)
    requires n <= |held| && n <= |pressed|
    ensures ButtonEvents(ButtonsAfter(held, pressed, n), pressed, n) == []
  {
    if n > 0 {
      ButtonsSettle(held, pressed, n - 1);
      var after := ButtonsAfter(held, pressed, n);
      var before := ButtonsAfter(held, pressed, n - 1);
      assert forall k :: 0 <= k < n - 1 ==> after[k] == before[k];
      ButtonEventsAgree(after, before, pressed, n - 1);
    }
  }

  /** The events for the first n buttons depend only on their remembered
      states. */
  lemma {:induction false} ButtonEventsAgree(a: seq<bool>, b: seq<bool>, pressed: seq<bool>, n: nat)
    requires n <= |a| && n <= |b| && n <= |pressed|
    requires forall k :: 0 <= k < n ==> a[k] == b[k]
    ensures ButtonEvents(a, pressed, n) == ButtonEvents(b, pressed, n)
  {
    if n > 0 {
      ButtonEventsAgree(a, b, pressed, n - 1);
    }
  }

  // Analog axes

  /** The events for the first n axes in analog mode: an SE_JOYSTICK_AXIS
      with the axis and its value wherever the value differs from the
      remembered one. */
  function AnalogEvents(levels: seq<int>, axes: seq<AxisReading>, n: nat): seq<Event>
    requires n <= |levels| && n <= |axes|
  {
    if n == 0 then
      []
    else
      AnalogEvents(levels, axes, n - 1)
      + (if Level(axes[n - 1]) != levels[n - 1] then [JoystickAxis(n - 1, Level(axes[n - 1]))] else [])
  }

  /** The remembered analog values once the first n axes have been read. */
  function LevelsAfter(levels: seq<int>, axes: seq<AxisReading>, n: nat): (r: seq<int>)
    ensures |r| == |levels|
  {
    seq(|levels|, k requires 0 <= k < |levels| => if k < n && k < |axes| then Level(axes[k]) else levels[k])
  }

  /** An axis event is queued exactly for an axis whose value changed, and it
      carries the new value. */
  lemma {:induction false} AnalogEventsIff(levels: seq<int>, axes: seq<AxisReading>, n: nat, i: nat, v: int)
    requires n <= |levels| && n <= |axes|
    ensures JoystickAxis(i, v) in AnalogEvents(levels, axes, n)
      <==> i < n && Level(axes[i]) != levels[i] && v == Level(axes[i])
  {
    if n > 0 {
      AnalogEventsIff(levels, axes, n - 1, i, v);
    }
  }

  /** The events for the first n axes depend only on their remembered
      values. */
  lemma {:induction false} AnalogEventsAgree(a: seq<int>, b: seq<int>, axes: seq<AxisReading>, n: nat)
    requires n <= |a| && n <= |b| && n <= |axes|
    requires forall k :: 0 <= k < n ==> a[k] == b[k]
    ensures AnalogEvents(a, axes, n) == AnalogEvents(b, axes, n)
  {
    if n > 0 {
      AnalogEventsAgree(a, b, axes, n - 1);
    }
  }

  /** Reading the same axes again queues nothing. */
  lemma {:induction false} LevelsSettle(levels: seq<int>, axes: seq<AxisReading>, n: nat)
    requires n <= |levels| && n <= |axes|
    ensures AnalogEvents(LevelsAfter(levels, axes, n), axes, n) == []
  {
    if n > 0 {
      LevelsSettle(levels, axes, n - 1);
      var after := LevelsAfter(levels, axes, n);
      var before := LevelsAfter(levels, axes, n - 1);
      assert forall k :: 0 <= k < n - 1 ==> after[k] == before[k];
      AnalogEventsAgree(after, before, axes, n - 1);
    }
  }

  // Digital axes

  /** The tilt of axis i, centred past the axes SDL reports. */
  function TiltAt(axes: seq<AxisReading>, i: nat): Tilt {
    if i < |axes| then axes[i].tilt else Centred
  }

  /** Bit j of the axes word: bit 2i is axis i tilted negative, bit 2i+1 axis
      i tilted positive, for the first 16 axes. */
  predicate AxisBit(axes: seq<AxisReading>, j: nat) {
    j < 2 * STICK_SLOTS
    && (if j % 2 == 0 then TiltAt(axes, j / 2) == Negative else TiltAt(axes, j / 2) == Positive)
  }

  /** The axes word as its 32 bits. */
  function AxisWord(axes: seq<AxisReading>): (r: seq<bool>)
    ensures |r| == 2 * STICK_SLOTS
    ensures forall j :: 0 <= j < |r| ==> (r[j] <==> AxisBit(axes, j))
  {
    seq(2 * STICK_SLOTS, j requires 0 <= j => AxisBit(axes, j))
  }

  /** The word with no bit set: analog mode, or no axes. */
  function NoBits(): (r: seq<bool>)
    ensures |r| == 2 * STICK_SLOTS
    ensures forall j :: 0 <= j < |r| ==> !r[j]
  {
    seq(2 * STICK_SLOTS, _ => false)
  }

  /** The key events for bits 0..n-1 of the word against the remembered
      one: joy_keys[i] pressed when bit i came on, released when it went
      off. */
  function EdgeEvents(bits: seq<bool>, before: seq<bool>, n: nat): seq<Event>
    requires n <= |bits| && n <= |before|
  {
    if n == 0 then
      []
    else
      EdgeEvents(bits, before, n - 1) + Edge(bits[n - 1], before[n - 1], n - 1)
  }

  /** The event for bit i going from was to now. */
  function Edge(now: bool, was: bool, i: nat): seq<Event> {
    if now && !was then [Key(AxisKey(i), true)]
    else if !now && was then [Key(AxisKey(i), false)]
    else []
  }

  /** An axis never sets both of its bits. */
  lemma AxisBitsExclusive(axes: seq<AxisReading>, i: nat)
    ensures !(AxisBit(axes, 2 * i) && AxisBit(axes, 2 * i + 1))
  {
    assert (2 * i) / 2 == i && (2 * i + 1) / 2 == i;
  }

  /** A press is queued exactly for a bit below n that came on, a release
      exactly for one that went off. */
  lemma {:induction false} EdgeEventsIff(bits: seq<bool>, before: seq<bool>, n: nat, i: nat, down: bool)
    requires n <= |bits| && n <= |before|
    ensures Key(AxisKey(i), down) in EdgeEvents(bits, before, n)
      <==> i < n && bits[i] != before[i] && down == bits[i]
  {
    if n > 0 {
      EdgeEventsIff(bits, before, n - 1, i, down);
    }
  }

  /** Bits at n and above never produce events: two words that agree below
      n give the same events. */
  lemma {:induction false} EdgeEventsLow(bits: seq<bool>, other: seq<bool>, before: seq<bool>, n: nat)
    requires n <= |bits| && n <= |other| && n <= |before|
    requires forall k :: 0 <= k < n ==> bits[k] == other[k]
    ensures EdgeEvents(bits, before, n) == EdgeEvents(other, before, n)
  {
    if n > 0 {
      EdgeEventsLow(bits, other, before, n - 1);
    }
  }

  /** An unchanged word queues nothing. */
  lemma {:induction false} EdgeEventsSame(bits: seq<bool>, n: nat)
    requires n <= |bits|
    ensures EdgeEvents(bits, bits, n) == []
  {
    if n > 0 {
      EdgeEventsSame(bits, n - 1);
    }
  }

  /** Axes 8 to 15, whose bits are 16 to 31, never produce key events: only
      the first eight axes' tilts matter. */
  lemma HighAxesSilent(axes: seq<AxisReading>, other: seq<AxisReading>, before: seq<bool>)
    requires |before| == 2 * STICK_SLOTS
    requires forall i :: 0 <= i < 8 ==> TiltAt(axes, i) == TiltAt(other, i)
    ensures EdgeEvents(AxisWord(axes), before, STICK_SLOTS) == EdgeEvents(AxisWord(other), before, STICK_SLOTS)
  {
    var a, b := AxisWord(axes), AxisWord(other);
    forall k | 0 <= k < STICK_SLOTS
      ensures a[k] == b[k]
    {
      assert TiltAt(axes, k / 2) == TiltAt(other, k / 2);
    }
    EdgeEventsLow(a, b, before, STICK_SLOTS);
  }

  /** The events of one poll of the stick. */
  function JoyEvents(held: seq<bool>, levels: seq<int>, before: seq<bool>, analog: bool,
                     pressed: seq<bool>, axes: seq<AxisReading>): seq<Event>
    requires |held| == STICK_SLOTS && |levels| == STICK_SLOTS && |before| == 2 * STICK_SLOTS
  {
    ButtonEvents(held, pressed, Min(|pressed|, STICK_SLOTS))
      + (if analog then AnalogEvents(levels, axes, Min(|axes|, STICK_SLOTS)) else [])
      + EdgeEvents(if analog then NoBits() else AxisWord(axes), before, STICK_SLOTS)
  }

  /** A second poll with the same readings, from the state the first one
      left, queues no event. */
  lemma JoySettles(held: seq<bool>, levels: seq<int>, before: seq<bool>, analog: bool,
                   pressed: seq<bool>, axes: seq<AxisReading>)
    requires |held| == STICK_SLOTS && |levels| == STICK_SLOTS && |before| == 2 * STICK_SLOTS
    ensures JoyEvents(ButtonsAfter(held, pressed, Min(|pressed|, STICK_SLOTS)),
                      if analog then LevelsAfter(levels, axes, Min(|axes|, STICK_SLOTS)) else levels,
                      if analog then NoBits() else AxisWord(axes),
                      analog, pressed, axes) == []
  {
    ButtonsSettle(held, pressed, Min(|pressed|, STICK_SLOTS));
    if analog {
      LevelsSettle(levels, axes, Min(|axes|, STICK_SLOTS));
      EdgeEventsSame(NoBits(), STICK_SLOTS);
    } else {
      EdgeEventsSame(AxisWord(axes), STICK_SLOTS);
    }
  }

  /** stick_state without the hats. */
  class StickState {
    var buttons: array<bool>
    var oldaxes: seq<bool>
    var oldaaxes: array<int>

    predicate Valid()
      reads this
    {
      buttons.Length == STICK_SLOTS && oldaaxes.Length == STICK_SLOTS && |oldaxes| == 2 * STICK_SLOTS
    }

    /** The zeroed static state. */
    constructor ()
      ensures Valid()
      ensures fresh(buttons) && fresh(oldaaxes)
      ensures buttons[..] == seq(STICK_SLOTS, _ => false)
      ensures oldaaxes[..] == seq(STICK_SLOTS, _ => 0)
      ensures oldaxes == NoBits()
    {
      buttons := new bool[STICK_SLOTS](_ => false);
      oldaaxes := new int[STICK_SLOTS](_ => 0);
      oldaxes := NoBits();
    }

    /** The button loop of IN_JoyMove over at most 16 buttons. */
    method PollButtons(pressed: seq<bool>) returns (events: seq<Event>)
      requires Valid()
      modifies buttons
      ensures events == ButtonEvents(old(buttons[..]), pressed, Min(|pressed|, STICK_SLOTS))
      ensures buttons[..] == ButtonsAfter(old(buttons[..]), pressed, Min(|pressed|, STICK_SLOTS))
    {
      var total := Min(|pressed|, STICK_SLOTS);
      events := [];
      var i := 0;
      while i < total
        invariant 0 <= i <= total
        invariant events == ButtonEvents(old(buttons[..]), pressed, i)
        invariant buttons[..] == ButtonsAfter(old(buttons[..]), pressed, i)
      {
        if pressed[i] != buttons[i] {
          events := events + [Key(JoyButton(i), pressed[i])];
          buttons[i] := pressed[i];
        }
        i := i + 1;
      }
    }

    /** The analog loop of IN_JoyMove over at most 16 axes. */
    method PollAnalog(axes: seq<AxisReading>) returns (events: seq<Event>)
      requires Valid()
      modifies oldaaxes
      ensures events == AnalogEvents(old(oldaaxes[..]), axes, Min(|axes|, STICK_SLOTS))
      ensures oldaaxes[..] == LevelsAfter(old(oldaaxes[..]), axes, Min(|axes|, STICK_SLOTS))
    {
      var total := Min(|axes|, MAX_JOYSTICK_AXIS);
      events := [];
      var i := 0;
      while i < total
        invariant 0 <= i <= total
        invariant events == AnalogEvents(old(oldaaxes[..]), axes, i)
        invariant oldaaxes[..] == LevelsAfter(old(oldaaxes[..]), axes, i)
      {
        var axis := axes[i].position;
        if axes[i].quiet {
          axis := 0;
        }
        if axis != oldaaxes[i] {
          events := events + [JoystickAxis(i, axis)];
          oldaaxes[i] := axis;
        }
        i := i + 1;
      }
    }

    /** The digital loop of IN_JoyMove: ORs in one bit per tilted axis. */
    static method DigitalWord(axes: seq<AxisReading>) returns (word: seq<bool>)
      ensures word == AxisWord(axes)
    {
      word := NoBits();
      var total := Min(|axes|, STICK_SLOTS);
      var i := 0;
      while i < total
        invariant 0 <= i <= total
        invariant |word| == 2 * STICK_SLOTS
        invariant forall j :: 0 <= j < |word| ==> (word[j] <==> j < 2 * i && AxisBit(axes, j))
      {
        if axes[i].tilt == Negative {
          word := word[2 * i := true];
        } else if axes[i].tilt == Positive {
          word := word[2 * i + 1 := true];
        }
        i := i + 1;
      }
    }

    /** The edge loop of IN_JoyMove over bits 0..15, run only when the word
      changed. */
    static method Edges(word: seq<bool>, before: seq<bool>) returns (events: seq<Event>)
      requires |word| == 2 * STICK_SLOTS && |before| == 2 * STICK_SLOTS
      ensures events == EdgeEvents(word, before, STICK_SLOTS)
    {
      events := [];
      if word == before {
        EdgeEventsSame(word, STICK_SLOTS);
        return;
      }
      var i := 0;
      while i < STICK_SLOTS
        invariant 0 <= i <= STICK_SLOTS
        invariant events == EdgeEvents(word, before, i)
      {
        if word[i] && !before[i] {
          events := events + [Key(AxisKey(i), true)];
        }
        if !word[i] && before[i] {
          events := events + [Key(AxisKey(i), false)];
        }
        i := i + 1;
      }
    }

    /** IN_JoyMove with an open stick, without balls and hats: buttons, then
      axes, then the axis edges; the new word is remembered. */
    method JoyMove(analog: bool, pressed: seq<bool>, axes: seq<AxisReading>) returns (events: seq<Event>)
      requires Valid()
      modifies this, buttons, oldaaxes
      ensures Valid() && buttons == old(buttons) && oldaaxes == old(oldaaxes)
      ensures events == JoyEvents(old(buttons[..]), old(oldaaxes[..]), old(oldaxes), analog, pressed, axes)
      ensures buttons[..] == ButtonsAfter(old(buttons[..]), pressed, Min(|pressed|, STICK_SLOTS))
      ensures oldaaxes[..] == if analog then LevelsAfter(old(oldaaxes[..]), axes, Min(|axes|, STICK_SLOTS)) else old(oldaaxes[..])
      ensures oldaxes == if analog then NoBits() else AxisWord(axes)
    {
      events := PollButtons(pressed);
      var word := NoBits();
      if analog {
        var moved := PollAnalog(axes);
        events := events + moved;
      } else {
        word := DigitalWord(axes);
      }
      var edges := Edges(word, oldaxes);
      events := events + edges;
      oldaxes := word;
    }
  }
}
