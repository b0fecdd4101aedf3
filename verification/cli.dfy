/** The pure text helpers of the terminal front-ends cli.py and cli_local.py
    (the second file repeats the first one's helpers verbatim): splitting an
    input line into a command and its arguments, accepting a command, and
    building the markup shown of a card. */
module Cli {
  import opened Results
  import opened Text
  import Uno

  const COMMANDS: seq<string> := ["exit", "draw", "play", "pass"]

  /** Card values drawn as a one-letter sign; every other value is drawn as
      itself. */
  const SYMBOLS: map<string, string> := map["reverse" := "r", "skip" := "s", "wild" := "w"]

  /** `parse_input`: strip the line, split it on single spaces, take the first
      piece as the command and join the rest back with single spaces. The
      command is the stripped line up to its first space, and command, one
      space and arguments put back together give the stripped line. */
  function ParseInput(line: string): (r: (string, string))
    ensures ' ' !in r.0
    ensures ' ' in Strip(line) ==> r.0 + " " + r.1 == Strip(line)
    ensures ' ' !in Strip(line) ==> r.0 == Strip(line) && r.1 == ""
  {
    var t := Strip(line);
    var parts := Split(t, ' ');
    JoinSplit(t, ' ');
    assert parts[0] in parts;
    (parts[0], Join(" ", parts[1..]))
  }

  /** `validate_input`: membership in COMMANDS. */
  function ValidateInput(input: string): (ok: bool)
    ensures ok <==> input == "exit" || input == "draw" || input == "play" || input == "pass"
  {
    input in COMMANDS
  }

  /** Two space-free words that are both followed by a space at the start of
      `t` are the same word. */
  lemma FirstWordUnique(a: string, b: string, t: string)
    requires ' ' !in a && ' ' !in b
    requires a + " " <= t && b + " " <= t
    ensures a == b
  {
    assert (a + " ")[|a|] == ' ' && (b + " ")[|b|] == ' ';
    assert a == t[..|a|] && b == t[..|b|];
  }

  /** The command is the stripped line itself or its prefix before a space. */
  lemma CommandShape(line: string)
    ensures Strip(line) == ParseInput(line).0 || ParseInput(line).0 + " " <= Strip(line)
  {
    var r := ParseInput(line);
    if ' ' in Strip(line) {
      assert Strip(line) == (r.0 + " ") + r.1;
    }
  }

  /** A space-free word at the start of the stripped line, alone or followed
      by a space, is the command. */
  lemma CommandIsFirstWord(line: string, w: string)
    requires ' ' !in w
    requires Strip(line) == w || w + " " <= Strip(line)
    ensures ParseInput(line).0 == w
  {
    var t := Strip(line);
    CommandShape(line);
    if t != w {
      assert t[|w|] == (w + " ")[|w|];
      FirstWordUnique(w, ParseInput(line).0, t);
    }
  }

  /** The input loop accepts a line exactly when the stripped line is a
      command on its own or a command followed by a space. */
  lemma AcceptedLine(line: string)
    ensures ValidateInput(ParseInput(line).0) <==>
      exists c :: c in COMMANDS && (Strip(line) == c || c + " " <= Strip(line))
  {
    var command := ParseInput(line).0;
    if command in COMMANDS {
      CommandShape(line);
      assert command in COMMANDS && (Strip(line) == command || command + " " <= Strip(line));
    }
    if c :| c in COMMANDS && (Strip(line) == c || c + " " <= Strip(line)) {
      CommandsSpaceFree(c);
      CommandIsFirstWord(line, c);
    }
  }

  lemma CommandsSpaceFree(c: string)
    requires c in COMMANDS
    ensures ' ' !in c
  {
  }

  /** `get_suit_style`: the markup style of a suit. Only wild, and a suit
      literally named "bold white", are drawn in bold white; the style gives
      the suit back otherwise. */
  function SuitStyle(suit: string): (style: string)
    ensures style == "bold white" <==> suit == "wild" || suit == "bold white"
    ensures suit != "bold white" ==> SuitOfStyle(style) == suit
  {
    if suit != "wild" then suit else "bold white"
  }

  /** `SYMBOLS.get(value, value)`: the sign drawn for a card value. A value
      with an entry is replaced by its first letter and any other is kept;
      the sign gives the value back unless the value is itself one of the
      letters r, s or w. */
  function CardSign(value: string): (sign: string)
    ensures sign != value ==> value in SYMBOLS && |sign| == 1
    ensures value in SYMBOLS ==> |value| > 0 && sign == value[..1]
    ensures value != "r" && value != "s" && value != "w" ==> ValueOfSign(sign) == value
  {
    if value in SYMBOLS then SYMBOLS[value] else value
  }

  /** The markup label of a style and a sign: the sign between bars, wrapped
      in an opening and a closing tag of the same style. A readable style and
      sign can be read back from it. */
  function Markup(style: string, sign: string): (shown: string)
    ensures Readable(style, sign) ==> ParseMarkup(shown) == Some((style, sign))
  {
    MarkupRoundTrip(style, sign);
    "[" + style + "]|" + sign + "|" + CloseTag(style)
  }

  function CloseTag(style: string): string {
    "[/" + style + "]"
  }

  /** `get_card_str`: the label of a card. It reads back as the card's style
      and sign, and for a valid card it determines the card. */
  function CardStr(card: Uno.Card): (shown: string)
    ensures Readable(SuitStyle(card.suit), CardSign(card.value)) ==>
      ParseMarkup(shown) == Some((SuitStyle(card.suit), CardSign(card.value)))
    ensures Uno.Valid(card) ==> CardOfLabel(shown) == Some(card)
  {
    ValidCardReadable(card);
    Markup(SuitStyle(card.suit), CardSign(card.value))
  }

  /** A style and sign that the label parser can read back: the style holds
      no closing bracket and the sign no bar. */
  predicate Readable(style: string, sign: string) {
    ']' !in style && '|' !in sign
  }

  /** Reads a label of the shape `[style]|sign|[/style]` back into its style
      and sign. */
  function ParseMarkup(shown: string): Option<(string, string)> {
    if |shown| == 0 || shown[0] != '[' then None
    else
      var body := shown[1..];
      var a := FirstIndex(body, ']');
      if a + 1 >= |body| || body[a + 1] != '|' then None
      else
        var style := body[..a];
        var rest := body[a + 2..];
        var b := FirstIndex(rest, '|');
        if b == |rest| then None
        else if rest[b + 1..] == CloseTag(style) then Some((style, rest[..b]))
        else None
  }

  /** A readable style and sign survive the trip through a label. */
  lemma MarkupRoundTrip(style: string, sign: string)
    ensures Readable(style, sign) ==>
      ParseMarkup("[" + style + "]|" + sign + "|" + CloseTag(style)) == Some((style, sign))
  {
    if Readable(style, sign) {
      var rest := sign + "|" + CloseTag(style);
      var body := style + "]|" + rest;
      assert "[" + style + "]|" + sign + "|" + CloseTag(style) == "[" + body;
      StyleSplits(style, rest);
      SignSplits(sign, CloseTag(style));
    }
  }

  /** The parser's first step on a label body: the style ends at the first
      closing bracket, which a bar follows. */
  lemma StyleSplits(style: string, rest: string)
    requires ']' !in style
    ensures var body := style + "]|" + rest;
      && FirstIndex(body, ']') == |style| && |style| + 1 < |body|
      && body[|style| + 1] == '|' && body[..|style|] == style && body[|style| + 2..] == rest
  {
    var body := style + "]|" + rest;
    assert body == style + [']'] + (['|'] + rest);
    FirstIndexAfter(style, ']', ['|'] + rest);
    assert body[..|style|] == style;
    assert body[|style| + 2..] == rest;
  }

  /** The parser's second step: the sign ends at the first bar, and the
      closing tag follows it. */
  lemma SignSplits(sign: string, close: string)
    requires '|' !in sign
    ensures var rest := sign + "|" + close;
      && FirstIndex(rest, '|') == |sign| && rest[..|sign|] == sign && rest[|sign| + 1..] == close
  {
    var rest := sign + "|" + close;
    assert rest == sign + ['|'] + close;
    FirstIndexAfter(sign, '|', close);
    assert rest[..|sign|] == sign;
    assert rest[|sign| + 1..] == close;
  }

  /** Whatever the parser accepts is a label of a readable style and sign. */
  lemma ParseMarkupSound(shown: string)
    ensures ParseMarkup(shown).Some? ==>
      var (style, sign) := ParseMarkup(shown).value;
      Readable(style, sign) && shown == Markup(style, sign)
  {
    if ParseMarkup(shown).Some? {
      var body := shown[1..];
      var a := FirstIndex(body, ']');
      var rest := body[a + 2..];
      var b := FirstIndex(rest, '|');
      ParseMarkupPieces(shown, body, a, rest, b);
    }
  }

  lemma ParseMarkupPieces(shown: string, body: string, a: nat, rest: string, b: nat)
    requires |shown| > 0 && shown[0] == '[' && body == shown[1..]
    requires a + 1 < |body| && body[a] == ']' && body[a + 1] == '|' && rest == body[a + 2..]
    requires b < |rest| && rest[b] == '|' && rest[b + 1..] == CloseTag(body[..a])
    ensures shown == Markup(body[..a], rest[..b])
  {
    var style, sign := body[..a], rest[..b];
    assert rest == sign + "|" + CloseTag(style);
    assert body == style + "]|" + rest;
    assert shown == "[" + body;
    assert shown == "[" + style + "]|" + sign + "|" + CloseTag(style);
  }

  /** The suit a style stands for: the inverse of SuitStyle. */
  function SuitOfStyle(style: string): string {
    if style == "bold white" then "wild" else style
  }

  /** The value a sign stands for: the inverse of the SYMBOLS lookup. */
  function ValueOfSign(sign: string): string {
    if sign == "r" then "reverse"
    else if sign == "s" then "skip"
    else if sign == "w" then "wild"
    else sign
  }

  /** The card a label shows, when the label has the expected shape. */
  function CardOfLabel(shown: string): Option<Uno.Card> {
    match ParseMarkup(shown)
    case Some((style, sign)) => Some(Uno.Card(ValueOfSign(sign), SuitOfStyle(style)))
    case None => None
  }

  /** Every suit but a suit literally named "bold white" keeps its identity
      through its style. */
  lemma SuitStyleRoundTrip(suit: string)
    requires suit != "bold white"
    ensures SuitOfStyle(SuitStyle(suit)) == suit
  {
  }

  /** Every value not itself spelled as one of the signs r, s or w keeps its
      identity through its sign. */
  lemma CardSignRoundTrip(value: string)
    requires value != "r" && value != "s" && value != "w"
    ensures ValueOfSign(CardSign(value)) == value
  {
  }

  /** The styles of the suits and the signs of the values are readable, and
      no suit or value collides with a style or sign of another. */
  lemma ValidCardReadable(card: Uno.Card)
    ensures Uno.Valid(card) ==> Readable(SuitStyle(card.suit), CardSign(card.value))
    ensures Uno.Valid(card) ==> SuitOfStyle(SuitStyle(card.suit)) == card.suit
    ensures Uno.Valid(card) ==> ValueOfSign(CardSign(card.value)) == card.value
  {
    if Uno.Valid(card) {
      SuitsReadable(card.suit);
      ValuesReadable(card.value);
    }
  }

  /** The styles of the five suits, in suit order: the four colours draw in
      their own colour and the wild suit in bold white. */
  lemma StylesOfSuits()
    ensures seq(|Uno.SUITS|, i requires 0 <= i < |Uno.SUITS| => SuitStyle(Uno.SUITS[i]))
         == ["red", "green", "blue", "yellow", "bold white"]
  {
  }

  /** The signs of the fifteen values, in value order: reverse and skip are
      drawn as r and s, every other value as itself. The entry for wild never
      applies, since no card value is wild. */
  lemma SignsOfValues()
    ensures seq(|Uno.VALUES|, i requires 0 <= i < |Uno.VALUES| => CardSign(Uno.VALUES[i]))
         == ["0", "1", "2", "3", "4", "5", "6", "7", "8", "9", "+2", "+4", "s", "r", "color"]
    ensures "wild" in SYMBOLS && "wild" !in Uno.VALUES
  {
  }

  lemma SuitsReadable(suit: string)
    requires suit in Uno.SUITS
    ensures ']' !in SuitStyle(suit) && suit != "bold white"
  {
  }

  lemma ValuesReadable(value: string)
    requires value in Uno.VALUES
    ensures '|' !in CardSign(value) && value != "r" && value != "s" && value != "w"
  {
  }

  /** Distinct valid cards get distinct labels. */
  lemma CardStrInjective(c1: Uno.Card, c2: Uno.Card)
    requires Uno.Valid(c1) && Uno.Valid(c2)
    ensures CardStr(c1) == CardStr(c2) <==> c1 == c2
  {
  }
}
