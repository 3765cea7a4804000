/**
  The remote player's side of the conversation (farkle.py:57-77): every
  roll offered is sent as a framed text, and the answer is read back as a
  list of integers, a bank, or nonsense. Sockets and byte decoding are not
  modelled: the answers arrive as the strings `recvMessage` returns, one
  after another, and a closed connection keeps returning the empty string.
 */
module Protocol {

  import opened Wrappers
  import opened Dice
  import opened Turns

  // ---------------------------------------------------------------------
  // Decimal numerals (`str(n)` and `int(token)`)
  // ---------------------------------------------------------------------

  predicate IsDigit(c: char) {
    '0' <= c <= '9'
  }

  predicate AllDigits(s: string) {
    forall i :: 0 <= i < |s| ==> IsDigit(s[i])
  }

  /** A numeral as `str` writes it: no leading zero unless it is `0`. */
  predicate Canonical(s: string) {
    |s| > 0 && AllDigits(s) && (s[0] != '0' || |s| == 1)
  }

  function DigitChar(d: nat): (c: char)
    requires d < 10
    ensures IsDigit(c)
  {
    ('0' as int + d) as char
  }

  function DigitValue(c: char): (d: nat)
    requires IsDigit(c)
    ensures d < 10 && DigitChar(d) == c
  {
    c as int - '0' as int
  }

  /** `str(n)` for a natural number. */
  function NatToString(n: nat): (s: string)
    ensures Canonical(s)
  {
    if n < 10 then [DigitChar(n)]
    else NatToString(n / 10) + [DigitChar(n % 10)]
  }

  /** The value of a string of decimal digits; leading zeros are allowed,
      as `int` allows them. */
  function DigitsToNat(s: string): nat
    requires AllDigits(s)
  {
    if |s| == 0 then 0
    else DigitsToNat(s[..|s| - 1]) * 10 + DigitValue(s[|s| - 1])
  }

  lemma {:induction false} NatToStringRoundTrip(n: nat)
    ensures DigitsToNat(NatToString(n)) == n
  {
    var s := NatToString(n);
    if n >= 10 {
      assert s[..|s| - 1] == NatToString(n / 10);
      NatToStringRoundTrip(n / 10);
    }
  }

  /** Every canonical numeral is the one `str` writes for its value. */
  lemma {:induction false} CanonicalRoundTrip(s: string)
    requires Canonical(s)
    ensures NatToString(DigitsToNat(s)) == s
    decreases |s|
  {
    if |s| > 1 {
      var front := s[..|s| - 1];
      assert Canonical(front);
      CanonicalRoundTrip(front);
      PositiveNumeral(front);
      assert NatToString(DigitsToNat(front)) == front;
    }
  }

  lemma PositiveNumeral(s: string)
    requires Canonical(s) && s[0] != '0'
    ensures DigitsToNat(s) >= 1
  {
    LeadingDigitBound(s);
  }

  lemma {:induction false} LeadingDigitBound(s: string)
    requires AllDigits(s) && |s| > 0
    ensures DigitsToNat(s) >= DigitValue(s[0])
    decreases |s|
  {
    if |s| > 1 {
      LeadingDigitBound(s[..|s| - 1]);
    }
  }

  /** `str(i)`: a minus sign before the digits of a negative number. */
  function IntToString(i: int): (s: string)
    ensures |s| > 0
  {
    if i < 0 then "-" + NatToString(-i) else NatToString(i)
  }

  /** The tokens `int` accepts here: an optional sign and some digits. */
  predicate IsIntToken(t: string) {
    if |t| > 0 && (t[0] == '+' || t[0] == '-') then |t| > 1 && AllDigits(t[1..])
    else |t| > 0 && AllDigits(t)
  }

  /** `int(token)`; `None` stands for the `ValueError`. */
  function ParseInt(t: string): (v: Option<int>)
    ensures v.Some? <==> IsIntToken(t)
  {
    if |t| > 0 && (t[0] == '+' || t[0] == '-') then
      if |t| > 1 && AllDigits(t[1..]) then
        var n: int := DigitsToNat(t[1..]);
        Some(if t[0] == '-' then -n else n)
      else None
    else if |t| > 0 && AllDigits(t) then Some(DigitsToNat(t))
    else None
  }

  lemma IntRoundTrip(i: int)
    ensures ParseInt(IntToString(i)) == Some(i)
  {
    if i < 0 {
      NegativeRoundTrip(i);
    } else {
      var s := NatToString(i);
      NatToStringRoundTrip(i);
      assert IsDigit(s[0]);
    }
  }

  lemma NegativeRoundTrip(i: int)
    requires i < 0
    ensures ParseInt(IntToString(i)) == Some(i)
  {
    var d := NatToString(-i);
    assert IntToString(i) == "-" + d;
    NatToStringRoundTrip(-i);
    SignedParse(d);
  }

  lemma SignedParse(d: string)
    requires Canonical(d)
    ensures ParseInt("-" + d) == Some(0 - DigitsToNat(d))
  {
    var s := "-" + d;
    assert s[0] == '-' && s[1..] == d;
  }

  // ---------------------------------------------------------------------
  // str.split()
  // ---------------------------------------------------------------------

  /** The characters `str.split()` splits on (those `str.isspace` accepts). */
  predicate IsSpace(c: char) {
    c == ' ' || '\t' <= c <= '\r' || '\U{1C}' <= c <= '\U{1F}' ||
    c == '\U{85}' || c == '\U{A0}' || c == '\U{1680}' || '\U{2000}' <= c <= '\U{200A}' ||
    c == '\U{2028}' || c == '\U{2029}' || c == '\U{202F}' || c == '\U{205F}' || c == '\U{3000}'
  }

  predicate NoSpace(s: string) {
    forall i :: 0 <= i < |s| ==> !IsSpace(s[i])
  }

  /** The leading run of non-space characters. */
  function Word(s: string): (w: string)
    ensures |w| <= |s| && w == s[..|w|] && NoSpace(w)
    ensures |w| < |s| ==> IsSpace(s[|w|])
  {
    if |s| == 0 || IsSpace(s[0]) then []
    else [s[0]] + Word(s[1..])
  }

  /** `s.split()`: the maximal runs of non-space characters, in order. */
  function Split(s: string): (words: seq<string>)
    ensures forall j :: 0 <= j < |words| ==> |words[j]| > 0 && NoSpace(words[j])
    decreases |s|
  {
    if |s| == 0 then []
    else if IsSpace(s[0]) then Split(s[1..])
    else
      var w := Word(s);
      [w] + Split(s[|w|..])
  }

  /** `" ".join(words)`. */
  function Join(words: seq<string>): string {
    if |words| == 0 then ""
    else if |words| == 1 then words[0]
    else words[0] + " " + Join(words[1..])
  }

  lemma {:induction false} WordOf(w: string, rest: string)
    requires NoSpace(w) && (|rest| == 0 || IsSpace(rest[0]))
    ensures Word(w + rest) == w
    decreases |w|
  {
    if |w| == 0 {
      assert w + rest == rest;
    } else {
      assert (w + rest)[1..] == w[1..] + rest;
      WordOf(w[1..], rest);
    }
  }

  /** Splitting undoes joining words that hold no spaces. */
  lemma {:induction false} SplitJoin(words: seq<string>)
    requires forall j :: 0 <= j < |words| ==> |words[j]| > 0 && NoSpace(words[j])
    ensures Split(Join(words)) == words
    decreases |words|
  {
    if |words| == 1 {
      SplitOneWord(words[0]);
      assert [words[0]] == words;
    } else if |words| > 1 {
      SplitJoin(words[1..]);
      SplitNextWord(words);
    }
  }

  lemma JoinCons(words: seq<string>)
    requires |words| > 1
    ensures Join(words) == words[0] + (" " + Join(words[1..]))
  {
  }

  lemma SplitOneWord(w: string)
    requires |w| > 0 && NoSpace(w)
    ensures Split(w) == [w]
  {
    WordOf(w, "");
    assert w + "" == w;
    assert w[|w|..] == "";
  }

  lemma SplitNextWord(words: seq<string>)
    requires |words| > 1 && |words[0]| > 0 && NoSpace(words[0])
    requires Split(Join(words[1..])) == words[1..]
    ensures Split(Join(words)) == words
  {
    var w := words[0];
    var tail := " " + Join(words[1..]);
    var s := w + tail;
    JoinCons(words);
    WordOf(w, tail);
    assert s[|w|..] == tail;
    assert tail[1..] == Join(words[1..]);
    assert Split(s) == [w] + Split(tail);
    assert [w] + words[1..] == words;
  }

  // ---------------------------------------------------------------------
  // Framing (farkle.py:57-58)
  // ---------------------------------------------------------------------

  const START: char := '\U{2}'
  const END: char := '\U{3}'

  /** `sendMessage`: a start byte, the length of the message in decimal, an
      end byte, and the message itself once. */
  function Frame(msg: string): (f: string)
    ensures |f| > |msg| + 2
  {
    [START] + NatToString(|msg|) + [END] + msg
  }

  /** The leading run of digits. */
  function DigitRun(s: string): (d: string)
    ensures |d| <= |s| && d == s[..|d|] && AllDigits(d)
    ensures |d| < |s| ==> !IsDigit(s[|d|])
  {
    if |s| == 0 || !IsDigit(s[0]) then []
    else [s[0]] + DigitRun(s[1..])
  }

  /** The reading a receiver gives a frame: the message, if the frame is
      well formed and its length field, written as `str` writes it, is the
      length of what follows the end byte. */
  function Unframe(f: string): (msg: Option<string>)
    ensures msg.Some? ==> |msg.value| < |f|
  {
    if |f| == 0 || f[0] != START then None
    else
      var d := DigitRun(f[1..]);
      var rest := f[1 + |d|..];
      if Canonical(d) && |rest| > 0 && rest[0] == END && DigitsToNat(d) == |rest| - 1 then Some(rest[1..])
      else None
  }

  lemma {:induction false} DigitRunOf(d: string, rest: string)
    requires AllDigits(d) && (|rest| == 0 || !IsDigit(rest[0]))
    ensures DigitRun(d + rest) == d
    decreases |d|
  {
    if |d| == 0 {
      assert d + rest == rest;
    } else {
      assert (d + rest)[1..] == d[1..] + rest;
      DigitRunOf(d[1..], rest);
    }
  }

  /** A frame reads back as the message it carries. */
  lemma FrameRoundTrip(msg: string)
    ensures Unframe(Frame(msg)) == Some(msg)
  {
    var f := Frame(msg);
    var d := NatToString(|msg|);
    assert f[1..] == d + ([END] + msg);
    DigitRunOf(d, [END] + msg);
    assert f[1 + |d|..] == [END] + msg;
    NatToStringRoundTrip(|msg|);
  }

  /** Only frames read back: whatever reads as `msg` is its frame. */
  lemma UnframeOnlyFrames(f: string, msg: string)
    requires Unframe(f) == Some(msg)
    ensures f == Frame(msg)
  {
    var d := DigitRun(f[1..]);
    var rest := f[1 + |d|..];
    CanonicalRoundTrip(d);
    assert f == [START] + d + rest;
    assert rest == [END] + msg;
  }

  /** The frame of a message is the only way to send it. */
  lemma FrameIff(f: string, msg: string)
    ensures Unframe(f) == Some(msg) <==> f == Frame(msg)
  {
    if Unframe(f) == Some(msg) {
      UnframeOnlyFrames(f, msg);
    }
    if f == Frame(msg) {
      FrameRoundTrip(msg);
    }
  }

  // ---------------------------------------------------------------------
  // The remote player's move (farkle.py:63-77)
  // ---------------------------------------------------------------------

  /** `str(roll)`: Python's text of a list of integers. */
  function RollText(roll: Roll): (s: string)
    ensures |s| >= 2 && s[0] == '[' && s[|s| - 1] == ']'
  {
    "[" + ListItems(roll.dice) + "]"
  }

  /** The items of a list as `str` writes them: each number, separated by
      a comma and a space. */
  function ListItems(dice: seq<int>): (s: string)
    ensures |dice| > 0 ==> |s| > 0
  {
    if |dice| == 0 then ""
    else if |dice| == 1 then IntToString(dice[0])
    else IntToString(dice[0]) + ", " + ListItems(dice[1..])
  }

  /** What a client reads from the text of a list: the integers between
      the brackets, separated by `", "`; `None` for any other text. */
  function ReadList(s: string): (dice: Option<seq<int>>)
    ensures dice.Some? ==> |s| >= 2 && s[0] == '[' && s[|s| - 1] == ']'
  {
    if |s| >= 2 && s[0] == '[' && s[|s| - 1] == ']' then ReadItems(s[1..|s| - 1]) else None
  }

  /** The leading run of characters other than a comma. */
  function Item(s: string): (w: string)
    ensures |w| <= |s| && w == s[..|w|] && ',' !in w
    ensures |w| < |s| ==> s[|w|] == ','
  {
    if |s| == 0 || s[0] == ',' then []
    else [s[0]] + Item(s[1..])
  }

  /** Integers separated by `", "`. */
  function ReadItems(s: string): (dice: Option<seq<int>>)
    ensures dice.Some? && |s| > 0 ==> |dice.value| > 0
    decreases |s|
  {
    if |s| == 0 then Some([])
    else
      var w := Item(s);
      var rest := s[|w|..];
      match ParseInt(w)
      case None => None
      case Some(v) =>
        if |rest| == 0 then Some([v])
        else if |rest| > 2 && rest[1] == ' ' then
          match ReadItems(rest[2..])
          case None => None
          case Some(vs) => Some([v] + vs)
        else None
  }

  lemma {:induction false} ItemOf(w: string, rest: string)
    requires ',' !in w && (|rest| == 0 || rest[0] == ',')
    ensures Item(w + rest) == w
    decreases |w|
  {
    if |w| == 0 {
      assert w + rest == rest;
    } else {
      assert (w + rest)[1..] == w[1..] + rest;
      ItemOf(w[1..], rest);
    }
  }

  /** `str(i)` is a sign and digits, so it holds no comma. */
  lemma NumeralHasNoComma(i: int)
    ensures ',' !in IntToString(i)
  {
    var s := IntToString(i);
    if i < 0 {
      assert s == "-" + NatToString(-i);
    }
  }

  /** Reading the items back gives the dice written. */
  lemma {:induction false} ReadItemsRoundTrip(dice: seq<int>)
    ensures ReadItems(ListItems(dice)) == Some(dice)
    decreases |dice|
  {
    if |dice| == 1 {
      FirstItemRoundTrip(dice);
    } else if |dice| > 1 {
      ReadItemsRoundTrip(dice[1..]);
      NextItemRoundTrip(dice);
    }
  }

  lemma FirstItemRoundTrip(dice: seq<int>)
    requires |dice| == 1
    ensures ReadItems(ListItems(dice)) == Some(dice)
  {
    NumeralHasNoComma(dice[0]);
    IntRoundTrip(dice[0]);
    ReadOneItem(IntToString(dice[0]), dice[0]);
    assert [dice[0]] == dice;
  }

  lemma NextItemRoundTrip(dice: seq<int>)
    requires |dice| > 1 && ReadItems(ListItems(dice[1..])) == Some(dice[1..])
    ensures ReadItems(ListItems(dice)) == Some(dice)
  {
    var w, tail := IntToString(dice[0]), ListItems(dice[1..]);
    ListItemsCons(dice);
    NumeralHasNoComma(dice[0]);
    IntRoundTrip(dice[0]);
    ReadNextItem(w, dice[0], tail, dice[1..]);
  }

  lemma ListItemsCons(dice: seq<int>)
    requires |dice| > 1
    ensures ListItems(dice) == IntToString(dice[0]) + ", " + ListItems(dice[1..])
    ensures [dice[0]] + dice[1..] == dice
  {
  }

  lemma ReadOneItem(w: string, v: int)
    requires ',' !in w && ParseInt(w) == Some(v)
    ensures ReadItems(w) == Some([v])
  {
    ItemOf(w, "");
    assert w + "" == w;
  }

  lemma ReadNextItem(w: string, v: int, tail: string, vs: seq<int>)
    requires ',' !in w && ParseInt(w) == Some(v)
    requires |tail| > 0 && ReadItems(tail) == Some(vs)
    ensures ReadItems(w + ", " + tail) == Some([v] + vs)
  {
    var rest := ", " + tail;
    var s := w + rest;
    ConcatAssoc(w, ", ", tail);
    ItemOf(w, rest);
    assert s[|w|..] == rest;
    assert |rest| > 2 && rest[1] == ' ' && rest[2..] == tail;
  }

  lemma ConcatAssoc(a: string, b: string, c: string)
    ensures a + b + c == a + (b + c)
  {
  }

  /** The text of a roll reads back as its dice, in order. */
  lemma RollTextRoundTrip(roll: Roll)
    ensures ReadList(RollText(roll)) == Some(roll.dice)
  {
    var s := RollText(roll);
    assert s[1..|s| - 1] == ListItems(roll.dice);
    ReadItemsRoundTrip(roll.dice);
  }

  /** The answer the player acts on: the first received string that is not
      `NOP`. A closed connection answers with the empty string. */
  function NextResponse(incoming: seq<string>): (response: string)
    ensures response != "NOP"
    ensures response != "" ==> response in incoming
  {
    if |incoming| == 0 then ""
    else if incoming[0] == "NOP" then NextResponse(incoming[1..])
    else incoming[0]
  }

  /** `int(n)` for every word; `None` if one of them is not a number. */
  function ParseInts(words: seq<string>): (vals: Option<seq<int>>)
    ensures vals.Some? <==> forall j :: 0 <= j < |words| ==> IsIntToken(words[j])
    ensures vals.Some? ==>
      |vals.value| == |words| &&
      (forall j :: 0 <= j < |words| ==> ParseInt(words[j]) == Some(vals.value[j]))
  {
    if |words| == 0 then Some([])
    else
      match ParseInt(words[0])
      case None => None
      case Some(v) =>
        match ParseInts(words[1..])
        case None => None
        case Some(vs) => Some([v] + vs)
  }

  /** The bank token. */
  const BANK: string := "\n"

  /** What `move` makes of an answer: the bank token banks, a list of
      integers is a keep if its dice come from the roll, and anything else
      banks. */
  function ReadAnswer(roll: Roll, response: string): (keep: Option<Roll>)
    ensures keep.Some? <==>
      (response != BANK &&
       ParseInts(Split(response)).Some? &&
       multiset(ParseInts(Split(response)).value) <= multiset(roll.dice))
    ensures keep.Some? ==> keep.value.dice == ParseInts(Split(response)).value
  {
    if response == BANK then None
    else
      match ParseInts(Split(response))
      case None => None
      case Some(vals) => if IsSubsetOf(Roll(vals), roll) then Some(Roll(vals)) else None
  }

  /** `RemotePlayer.move`: the frame sent for the roll and the decision read
      from the answers received. */
  function RemoteMove(roll: Roll, incoming: seq<string>): (result: (string, Option<Roll>))
    ensures Unframe(result.0) == Some(RollText(roll))
    ensures result.1.Some? ==> multiset(result.1.value.dice) <= multiset(roll.dice)
    ensures result.1 == ReadAnswer(roll, NextResponse(incoming))
  {
    FrameRoundTrip(RollText(roll));
    (Frame(RollText(roll)), ReadAnswer(roll, NextResponse(incoming)))
  }

  /** The answer a client writes to keep `dice`: the numbers separated by
      spaces. */
  function KeepText(dice: seq<int>): string {
    Join(IntWords(dice))
  }

  function IntWords(dice: seq<int>): (words: seq<string>)
    ensures |words| == |dice|
    ensures forall j :: 0 <= j < |dice| ==> words[j] == IntToString(dice[j])
  {
    if |dice| == 0 then [] else [IntToString(dice[0])] + IntWords(dice[1..])
  }

  lemma IntWordsParse(dice: seq<int>)
    ensures ParseInts(IntWords(dice)) == Some(dice)
  {
    var words := IntWords(dice);
    forall j | 0 <= j < |dice| ensures ParseInt(words[j]) == Some(dice[j]) {
      IntRoundTrip(dice[j]);
    }
    var vals := ParseInts(words);
    assert vals.Some?;
    assert vals.value == dice;
  }

  lemma IntWordsHaveNoSpace(dice: seq<int>)
    ensures forall j :: 0 <= j < |dice| ==> |IntWords(dice)[j]| > 0 && NoSpace(IntWords(dice)[j])
  {
    forall j | 0 <= j < |dice| ensures NoSpace(IntToString(dice[j])) {
      var s := IntToString(dice[j]);
      forall i | 0 <= i < |s| ensures !IsSpace(s[i]) {
        if dice[j] < 0 {
          assert s[1..] == NatToString(-dice[j]);
          if i > 0 {
            assert s[i] == NatToString(-dice[j])[i - 1];
          }
        }
      }
    }
  }

  /** A client that answers a roll with some of its dice, after any number
      of `NOP`s, gets exactly those dice kept. */
  lemma RemoteKeepRoundTrip(roll: Roll, keep: Roll, nops: nat, later: seq<string>)
    requires multiset(keep.dice) <= multiset(roll.dice)
    ensures RemoteMove(roll, seq(nops, _ => "NOP") + [KeepText(keep.dice)] + later).1 == Some(keep)
  {
    var text := KeepText(keep.dice);
    var incoming := seq(nops, _ => "NOP") + [text] + later;
    assert NextResponse(incoming) == text by {
      NopsSkipped(nops, [text] + later);
      assert incoming == seq(nops, _ => "NOP") + ([text] + later);
      KeepTextIsNotNop(keep.dice);
    }
    ReadKeep(roll, keep);
  }

  /** The answer for a keep starts with a digit or a minus sign, so it is
      never taken for `NOP`. */
  lemma KeepTextIsNotNop(dice: seq<int>)
    ensures KeepText(dice) != "NOP"
  {
    if |dice| > 0 {
      var words := IntWords(dice);
      var w := words[0];
      assert w[0] == '-' || IsDigit(w[0]) by {
        if dice[0] >= 0 {
          assert w == NatToString(dice[0]);
        }
      }
      if |words| > 1 {
        JoinCons(words);
      }
      assert KeepText(dice)[0] == w[0];
    }
  }

  /** The text of a keep reads back as that keep when its dice were rolled. */
  lemma ReadKeep(roll: Roll, keep: Roll)
    requires multiset(keep.dice) <= multiset(roll.dice)
    ensures ReadAnswer(roll, KeepText(keep.dice)) == Some(keep)
  {
    IntWordsHaveNoSpace(keep.dice);
    SplitJoin(IntWords(keep.dice));
    IntWordsParse(keep.dice);
    KeepTextIsNotBank(keep.dice);
  }

  lemma KeepTextIsNotBank(dice: seq<int>)
    ensures KeepText(dice) != BANK
  {
    IntWordsHaveNoSpace(dice);
    SplitJoin(IntWords(dice));
    assert Split(BANK) == [];
  }

  /** Any number of leading `NOP`s is skipped. */
  lemma {:induction false} NopsSkipped(nops: nat, incoming: seq<string>)
    ensures NextResponse(seq(nops, _ => "NOP") + incoming) == NextResponse(incoming)
  {
    if nops > 0 {
      var s := seq(nops, _ => "NOP") + incoming;
      assert s[1..] == seq(nops - 1, _ => "NOP") + incoming;
      NopsSkipped(nops - 1, incoming);
    } else {
      assert seq(nops, _ => "NOP") + incoming == incoming;
    }
  }

  /** The bank token, sent after any number of `NOP`s, banks. */
  lemma RemoteBank(roll: Roll, nops: nat, later: seq<string>)
    ensures RemoteMove(roll, seq(nops, _ => "NOP") + [BANK] + later).1 == None
  {
    NopsSkipped(nops, [BANK] + later);
    assert seq(nops, _ => "NOP") + [BANK] + later == seq(nops, _ => "NOP") + ([BANK] + later);
  }

  /** A remote player as a turn's decision maker: the `i`-th decision
      reads the `i`-th list of received answers (an empty list once the
      connection is gone). */
  function Remote(answers: seq<seq<string>>): (respond: Responder)
    ensures forall i: nat, r :: respond(i, r) == RemoteMove(r, if i < |answers| then answers[i] else []).1
  {
    (i: nat, r: Roll) => RemoteMove(r, if i < |answers| then answers[i] else []).1
  }

  /** The subset filter makes the remote player honest. */
  lemma RemoteIsHonest(answers: seq<seq<string>>)
    ensures Honest(Remote(answers))
  {
  }

}
