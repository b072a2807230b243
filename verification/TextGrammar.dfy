/**
 * What the parser of dotted text reads (rust/crates/hns-core/src/dns.rs), said over the characters of
 * the text alone.
 */
module TextGrammar {
  import opened Prelude
  import opened WireName
  import opened NameText
  import opened NameGrammar

  /** Blanks and the control characters 9 to 13. */
  predicate Blank(s: seq<byte>) {
    forall i | 0 <= i < |s| :: s[i] == 32 || 9 <= s[i] <= 13
  }

  predicate Dots(s: seq<byte>) {
    forall i | 0 <= i < |s| :: s[i] == 0x2e
  }

  /** The pieces are the labels of the name, up to the case of their letters. */
  ghost predicate Pieces(raw: seq<seq<byte>>, name: DnsName) {
    |raw| == |name| && forall i | 0 <= i < |raw| :: 1 <= |raw[i]| <= 63 && Folds(raw[i], name[i])
  }

  /** Blanks, the labels with a dot between each two, any number of dots, and blanks. */
  ghost predicate SpelledAs(
    text: seq<byte>, name: DnsName, front: seq<byte>, raw: seq<seq<byte>>, dots: seq<byte>, back: seq<byte>)
  {
    Blank(front) && Pieces(raw, name) && Dots(dots) && Blank(back) && text == front + (Join(raw) + dots + back)
  }

  ghost predicate Spelled(text: seq<byte>, name: DnsName) {
    exists front, raw, dots, back :: SpelledAs(text, name, front, raw, dots, back)
  }

  // ---------------------------------------------------------------- trimming

  lemma {:induction false} TrimStartOf(front: seq<byte>, s: seq<byte>)
    requires Blank(front) && (s == [] || !IsSpace(s[0]))
    ensures TrimStart(front + s) == s
    decreases |front|
  {
    if front == [] {
      assert front + s == s;
    } else {
      assert (front + s)[1..] == front[1..] + s;
      TrimStartOf(front[1..], s);
    }
  }

  lemma {:induction false} TrimEndOf(s: seq<byte>, back: seq<byte>)
    requires Blank(back) && (s == [] || !IsSpace(s[|s| - 1]))
    ensures TrimEnd(s + back) == s
    decreases |back|
  {
    if back == [] {
      assert s + back == s;
    } else {
      assert (s + back)[..|s + back| - 1] == s + back[..|back| - 1];
      TrimEndOf(s, back[..|back| - 1]);
    }
  }

  lemma {:induction false} TrimDotsOf(s: seq<byte>, dots: seq<byte>)
    requires Dots(dots) && (s == [] || s[|s| - 1] != DOT)
    ensures TrimDots(s + dots) == s
    decreases |dots|
  {
    if dots == [] {
      assert s + dots == s;
    } else {
      assert (s + dots)[..|s + dots| - 1] == s + dots[..|dots| - 1];
      TrimDotsOf(s, dots[..|dots| - 1]);
    }
  }

  lemma {:induction false} TrimStartSplits(text: seq<byte>) returns (front: seq<byte>)
    ensures Blank(front) && text == front + TrimStart(text)
    decreases |text|
  {
    front := [];
    if text != [] && IsSpace(text[0]) {
      var rest := TrimStartSplits(text[1..]);
      front := [text[0]] + rest;
    }
  }

  lemma {:induction false} TrimEndSplits(text: seq<byte>) returns (back: seq<byte>)
    ensures Blank(back) && text == TrimEnd(text) + back
    decreases |text|
  {
    back := [];
    if text != [] && IsSpace(text[|text| - 1]) {
      var rest := TrimEndSplits(text[..|text| - 1]);
      back := rest + [text[|text| - 1]];
    }
  }

  lemma {:induction false} TrimDotsSplits(text: seq<byte>) returns (dots: seq<byte>)
    ensures Dots(dots) && text == TrimDots(text) + dots
    decreases |text|
  {
    dots := [];
    if text != [] && text[|text| - 1] == DOT {
      var rest := TrimDotsSplits(text[..|text| - 1]);
      dots := rest + [text[|text| - 1]];
    }
  }

  lemma TrimmedOf(text: seq<byte>, front: seq<byte>, s: seq<byte>, dots: seq<byte>, back: seq<byte>)
    requires Blank(front) && Dots(dots) && Blank(back) && text == front + (s + dots + back)
    requires s == [] || (!IsSpace(s[0]) && s[|s| - 1] != DOT && !IsSpace(s[|s| - 1]))
    ensures Trimmed(text) == s
  {
    hide TrimStart, TrimEnd, TrimDots;
    if s + dots == [] {
      assert text == (front + back) + [];
      TrimStartOf(front + back, []);
      TrimEndOf([], []);
      TrimDotsOf([], []);
      assert TrimEnd([] + []) == [] == [] + [];
    } else {
      TrimStartOf(front, s + dots + back);
      TrimEndOf(s + dots, back);
      TrimDotsOf(s, dots);
    }
  }

  // ---------------------------------------------------------------- splitting

  lemma {:induction false} JoinSplit(text: seq<byte>)
    ensures Join(Split(text)) == text
    decreases |text|
  {
    hide FirstDot;
    var i := FirstDot(text);
    if i < |text| {
      var rest := Split(text[i + 1..]);
      JoinSplit(text[i + 1..]);
      JoinCons(text[..i], rest);
      assert text == text[..i] + [DOT] + text[i + 1..];
      hide Join, Split;
      assert Split(text) == [text[..i]] + rest by { SplitAt(text, i); }
    } else {
      assert Join([text]) == text;
    }
  }

  lemma JoinCons(first: seq<byte>, rest: seq<seq<byte>>)
    requires rest != []
    ensures Join([first] + rest) == first + [DOT] + Join(rest)
  {
    assert ([first] + rest)[1..] == rest;
  }

  lemma SplitAt(text: seq<byte>, i: nat)
    requires i == FirstDot(text) && i < |text|
    ensures Split(text) == [text[..i]] + Split(text[i + 1..])
  {
    hide FirstDot;
  }

  lemma PieceIff(octets: seq<byte>, kept: Label)
    ensures 1 <= |octets| <= 63 && Folds(octets, kept) <==> AcceptableLabel(octets) && kept == Lower(octets)
  {
    FoldsIff(octets, kept);
    hide Folds, IsValidLabel, Lower;
  }

  lemma {:induction false} LoweredIff(raw: seq<seq<byte>>, name: DnsName)
    ensures Lowered(raw) == Ok(name) <==> Pieces(raw, name)
    decreases |raw|
  {
    hide Folds, AcceptableLabel, Lower;
    if raw != [] {
      var n := |raw| - 1;
      if |name| == n + 1 {
        LoweredIff(raw[..n], name[..n]);
        PieceIff(raw[n], name[n]);
        assert name == name[..n] + [name[n]];
      }
      if Lowered(raw).Ok? {
        var front := Lowered(raw[..n]).value;
        LoweredIff(raw[..n], front);
        PieceIff(raw[n], Lower(raw[n]));
        assert (front + [Lower(raw[n])])[..n] == front;
      }
    }
  }

  lemma PiecesAreAcceptable(raw: seq<seq<byte>>, name: DnsName)
    requires Pieces(raw, name)
    ensures forall i | 0 <= i < |raw| :: AcceptableLabel(raw[i])
  {
    hide Folds, AcceptableLabel;
    forall i | 0 <= i < |raw|
      ensures AcceptableLabel(raw[i])
    {
      PieceIff(raw[i], name[i]);
    }
  }

  // ---------------------------------------------------------------- the text of a name

  lemma SpelledIsRead(text: seq<byte>, name: DnsName, front: seq<byte>, raw: seq<seq<byte>>, dots: seq<byte>, back: seq<byte>)
    requires SpelledAs(text, name, front, raw, dots, back)
    ensures FromAscii(text) == if Fits(name) then Ok(name) else Err(LengthLimit)
  {
    PiecesAreAcceptable(raw, name);
    LoweredIff(raw, name);
    hide Pieces, Lowered, Trimmed, Split, AcceptableLabel, LabelsSize;
    if raw != [] {
      JoinEnds(raw);
      SplitJoin(raw);
    } else {
      NoLabels();
    }
    TrimmedOf(text, front, Join(raw), dots, back);
  }

  lemma ReadIsSpelled(text: seq<byte>)
    requires FromAscii(text).Ok?
    ensures Spelled(text, FromAscii(text).value) && Fits(FromAscii(text).value)
  {
    hide TrimStart, TrimEnd, TrimDots, Split, Lowered, LabelsSize, Pieces;
    var front := TrimStartSplits(text);
    var back := TrimEndSplits(TrimStart(text));
    var dots := TrimDotsSplits(TrimEnd(TrimStart(text)));
    var trimmed, name := Trimmed(text), FromAscii(text).value;
    NoLabels();
    var raw: seq<seq<byte>> := if trimmed == [] then [] else Split(trimmed);
    if trimmed != [] {
      JoinSplit(trimmed);
    } else {
      NothingLowered();
    }
    LoweredIff(raw, name);
    assert SpelledAs(text, name, front, raw, dots, back);
  }

  lemma NothingLowered()
    ensures Lowered([]) == Ok([])
  {
  }

  /** A text is read as a name exactly if it spells the name and the name fits. */
  lemma FromAsciiIff(text: seq<byte>, name: DnsName)
    ensures FromAscii(text) == Ok(name) <==> Spelled(text, name) && Fits(name)
  {
    hide SpelledAs, FromAscii, Fits;
    if Spelled(text, name) {
      var front, raw, dots, back :| SpelledAs(text, name, front, raw, dots, back);
      SpelledIsRead(text, name, front, raw, dots, back);
    }
    if FromAscii(text) == Ok(name) {
      ReadIsSpelled(text);
    }
  }
}
