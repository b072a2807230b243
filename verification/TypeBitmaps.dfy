/**
 * Type bitmaps as they are laid out (section 4.1.2 of RFC 4034; rust/crates/hns-dnssec/src/lib.rs):
 * windows with rising numbers, each with the bits of 256 type codes, most significant bit first.
 */
module TypeBitmaps {
  import opened Prelude
  import opened Rdata

  datatype Window = Window(number: byte, bits: seq<byte>)

  predicate Proper(w: Window) { 1 <= |w.bits| <= 32 }

  function Laid(w: Window): seq<byte>
    requires Proper(w)
  {
    [w.number, |w.bits|] + w.bits
  }

  ghost predicate Windows(ws: seq<Window>) {
    && (forall i | 0 <= i < |ws| :: Proper(ws[i]))
    && (forall i, j | 0 <= i < j < |ws| :: ws[i].number < ws[j].number)
  }

  /** The windows one behind the other. */
  ghost function Flatten(ws: seq<Window>): seq<byte>
    requires Windows(ws)
  {
    if ws == [] then [] else Laid(ws[0]) + Flatten(ws[1..])
  }

  function TwoTo(n: nat): (r: nat)
    ensures r >= 1
  {
    if n == 0 then 1 else 2 * TwoTo(n - 1)
  }

  /** Bit p of a string read as one number from its first octet on, most significant bit first. */
  predicate BitAt(bits: seq<byte>, p: nat) {
    p < 8 * |bits| && bits[p / 8] / TwoTo(7 - p % 8) % 2 == 1
  }

  /** The window of the code's high octet has the bit of its low octet. */
  ghost predicate Listed(ws: seq<Window>, code: u16) {
    exists i :: 0 <= i < |ws| && ws[i].number == code / 0x100 && BitAt(ws[i].bits, code % 0x100)
  }

  // ---------------------------------------------------------------- valid bitmaps are windows

  lemma SplitWindow(w: Window, rest: seq<byte>)
    requires Proper(w)
    ensures var maps := Laid(w) + rest;
      && |maps| >= 2 && maps[0] == w.number && maps[1] == |w.bits| && maps[1] + 2 <= |maps|
      && maps[2..maps[1] + 2] == w.bits && maps[maps[1] + 2..] == rest
  {
  }

  lemma JoinWindow(maps: seq<byte>)
    requires |maps| >= 2 && 1 <= maps[1] <= 32 && maps[1] + 2 <= |maps|
    ensures var w := Window(maps[0], maps[2..maps[1] + 2]); Proper(w) && Laid(w) + maps[maps[1] + 2..] == maps
  {
  }

  lemma {:induction false} WindowsAreValid(ws: seq<Window>, previous: Option<byte>)
    requires Windows(ws) && (previous.Some? && ws != [] ==> ws[0].number > previous.value)
    ensures ValidBitmaps(Flatten(ws), previous)
    decreases |ws|
  {
    if ws != [] {
      SplitWindow(ws[0], Flatten(ws[1..]));
      WindowsAreValid(ws[1..], Some(ws[0].number));
    }
  }

  lemma {:induction false} ValidAreWindows(maps: seq<byte>, previous: Option<byte>) returns (ws: seq<Window>)
    requires ValidBitmaps(maps, previous)
    ensures Windows(ws) && Flatten(ws) == maps
    ensures previous.Some? && ws != [] ==> ws[0].number > previous.value
    decreases |maps|
  {
    if maps == [] {
      ws := [];
    } else {
      JoinWindow(maps);
      var w := Window(maps[0], maps[2..maps[1] + 2]);
      var rest := ValidAreWindows(maps[maps[1] + 2..], Some(maps[0]));
      ws := [w] + rest;
      assert ws[1..] == rest;
      RisingFront(w, rest);
    }
  }

  lemma RisingFront(w: Window, rest: seq<Window>)
    requires Proper(w) && Windows(rest) && (rest != [] ==> rest[0].number > w.number)
    ensures Windows([w] + rest)
  {
    forall j | 0 <= j < |rest|
      ensures rest[j].number > w.number
    {
      assert j > 0 ==> rest[0].number < rest[j].number;
    }
  }

  /** A bitmap is valid exactly if it is windows laid one behind the other. */
  lemma ValidIff(maps: seq<byte>)
    ensures ValidBitmaps(maps, None) <==> exists ws :: Windows(ws) && Flatten(ws) == maps
  {
    if ValidBitmaps(maps, None) {
      var ws := ValidAreWindows(maps, None);
      assert Windows(ws) && Flatten(ws) == maps;
    }
    if exists ws :: Windows(ws) && Flatten(ws) == maps {
      var ws :| Windows(ws) && Flatten(ws) == maps;
      WindowsAreValid(ws, None);
    }
  }

  // ---------------------------------------------------------------- and list what their bits say

  lemma BitIs(octet: byte, position: nat)
    requires position < 8
    ensures Bit(octet, position) <==> octet / TwoTo(7 - position) % 2 == 1
  {
    assert TwoTo(0) == 1 && TwoTo(1) == 2 && TwoTo(2) == 4 && TwoTo(3) == 8;
    assert TwoTo(4) == 16 && TwoTo(5) == 32 && TwoTo(6) == 64 && TwoTo(7) == 128;
  }

  lemma WindowHas(w: Window, rest: seq<byte>, code: u16)
    requires Proper(w) && w.number == code / 0x100
    ensures HasType(Laid(w) + rest, code) <==> BitAt(w.bits, code % 0x100)
  {
    SplitWindow(w, rest);
    var maps, p := Laid(w) + rest, code % 0x100;
    assert code % 8 == p % 8;
    if p / 8 < |w.bits| {
      assert maps[2 + p / 8] == maps[2..maps[1] + 2][p / 8];
      BitIs(w.bits[p / 8], p % 8);
    }
    hide TwoTo, Bit, Laid;
  }

  /** A type is found in laid-out windows exactly if they list it. */
  lemma {:induction false} HasTypeIff(ws: seq<Window>, code: u16)
    requires Windows(ws)
    ensures HasType(Flatten(ws), code) <==> Listed(ws, code)
    decreases |ws|
  {
    hide BitAt, Laid;
    if ws != [] {
      SplitWindow(ws[0], Flatten(ws[1..]));
      if ws[0].number == code / 0x100 {
        WindowHas(ws[0], Flatten(ws[1..]), code);
        assert forall i | 0 < i < |ws| :: ws[i].number != ws[0].number;
      } else {
        HasTypeIff(ws[1..], code);
        assert forall i | 0 < i < |ws| :: ws[1..][i - 1] == ws[i];
        if Listed(ws, code) {
          var i :| 0 <= i < |ws| && ws[i].number == code / 0x100 && BitAt(ws[i].bits, code % 0x100);
          assert ws[1..][i - 1] == ws[i];
        }
      }
    }
  }
}
