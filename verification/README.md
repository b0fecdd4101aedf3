# Uno card deck and command-line helpers

A Dafny model of the card layer of a small Uno game. It has three parts:

- `uno.py`:
  - the two enumerations `SUITS` and `VALUES`;
  - the validating `Card` constructor;
  - the `Deck` constructor and its helper `_makedeck`, which build the
    deck twice over: a flat list `cards` and a per-suit dictionary
    `cards_by_suit`.
- `cli.py`: the pure helpers of the terminal front end:
  - the command list `COMMANDS` and the sign table `SYMBOLS`;
  - `parse_input`, which splits a typed line into a command and its
    arguments;
  - `validate_input`;
  - `get_suit_style` and `get_card_str`, which build the rich-markup
    label of a card.
- `cli_local.py`: it repeats every one of these helpers verbatim, up to
  indentation. The model defines each of them once. The rows below cite
  whichever copy the row is about.

Modules:

- `Results` (`results.dfy`): the `Option` and `Result` wrappers.
  A raised `ValueError` becomes a `Failure`, which carries a `CardError`
  naming the rejected value or suit.
- `Text` (`text.dfy`): the three Python string built-ins the helpers
  rely on:
  - `str.strip()`, using Python's whitespace set;
  - `str.split(' ')`, with an explicit separator, so empty fields are kept;
  - `' '.join`.
- `Uno` (`uno.dfy`): cards and the deck.
  - The deck methods perform the same sequence of constructor calls as the
    source: ten digit cards, then two rounds of +2/reverse/skip, per
    non-wild suit.
  - They are proved equal to the reference definitions `Flatten`
    (the list of cards) and `BySuit` (the dictionary).
  - Those definitions are built from one per-suit list `Bucket`.
- `Cli` (`cli.dfy`): command parsing and card labels.
  - A label reader, `ParseMarkup` and `CardOfLabel`, is the partner
    definition. It is used to prove that the labels are unambiguous.

Python's `str(i)` for a digit `i`, and the `in` tests on lists and dicts,
are written out explicitly. A Python dictionary becomes a Dafny `map`. The
order in which `cards_by_suit` lists its keys is stated separately: the
flat list equals the buckets concatenated in `SUITS` order (`Concat`).

## Model

| member | source | states |
|---|---|---|
| Uno.NewCard | uno.py:9-17 | A card is built exactly when the value is in `VALUES` and the suit in `SUITS`, and it then stores those two strings unchanged. An unknown value is rejected before the suit is looked at; an unknown suit with a known value is rejected as a suit error. |
| Uno.NewCardAcceptsExactlyValid | uno.py:10-14 | The constructor gives back the card asked for if and only if the card is valid. |
| Uno.ConstructorExamples | uno_test.py:5-15 | `Card('0','red')` keeps value `'0'` and suit `'red'`; `Card('a','red')` and `Card('0','rede')` are rejected. |
| Uno.AppendDigits | uno.py:29-32 | The digit loop appends the cards `'0'`…`'9'` of the suit, in order, to both the flat list and the suit's bucket. It fails with the suit error exactly when the suit is unknown. |
| Uno.AppendActions | uno.py:34-44 | The action loop appends +2, reverse, skip, +2, reverse, skip of the suit to both the flat list and the bucket. |
| Uno.MakeSuit | uno.py:27-44 | For a known non-wild suit, `_makedeck` appends that suit's 16 cards to the flat list and to the suit's entry; it touches no other entry. For wild it changes nothing. For an unknown suit it raises the suit error. |
| Uno.FillDeck | uno.py:20-25 | Building over a list of suits succeeds exactly when every suit is known. The result is the concatenation of the buckets and the map from each suit to its bucket. A failure names a listed, unknown suit. |
| Uno.NewDeck | uno.py:19-25 | `Deck()` never raises. It yields the standard deck. |
| Uno.DeckViewsAgree | uno.py:21-25 | The dictionary's keys are exactly the five suits, the wild suit included. Its buckets, read in `SUITS` order, are the flat card list. |
| Uno.DeckSize | uno.py:23-44 | The flat card list of the deck holds 64 cards. |
| Uno.BucketLayout | uno.py:28-44 | The wild bucket is empty. Each colour bucket holds 16 cards: card `i` is the digit `str(i)` for `i < 10`, then +2, reverse, skip, then the same triple again. |
| Uno.NoWildCards | uno.py:28-37 | Every card in the deck has a colour suit, is neither +4 nor color, and passes the constructor's check. |
| Uno.BucketsHoldTheirSuit | uno.py:30-44 | Every card filed under a suit has that suit, and that suit is a known one. |
| Uno.DeckComposition | uno.py:23-44 | Each colour holds one card of each digit and two each of +2, reverse and skip, and no other card. Wild suits and the values +4 and color never occur. |
| Text.Strip | cli.py:101 | `strip()` returns a slice of the line with only whitespace cut from either end, and the result neither starts nor ends with whitespace. |
| Text.StripIdempotent | cli_local.py:132 | Stripping an already stripped line changes nothing. |
| Text.Split | cli.py:102 | `split(' ')` yields one more piece than the line has spaces. No piece contains a space, and the first piece is a prefix of the line. |
| Text.Join | cli.py:105 | `' '.join` of a non-empty list of pieces starts with the first piece. |
| Text.JoinSplit | cli.py:102-105 | Joining the pieces of `split(' ')` with `' '` gives back the line, so no character of the input is lost between command and arguments. |
| Text.SplitJoin | cli_local.py:133-136 | Splitting on `' '` a join of space-free pieces gives back those pieces, empty ones included. |
| Cli.ParseInput | cli.py:100-106 | The command holds no space. If the stripped line contains a space, it is the command, one space, then the arguments. Otherwise the command is the whole stripped line and the arguments are empty. |
| Cli.CommandIsFirstWord | cli_local.py:131-137 | A space-free word standing alone or before a space at the start of the stripped line is what `parse_input` returns as the command. |
| Cli.ValidateInput | cli.py:48-49 | A command is accepted if and only if it is one of exit, draw, play, pass. |
| Cli.AcceptedLine | cli.py:65-69 | The input loop stops on a line if and only if the stripped line is a command word alone or a command word followed by a space. |
| Cli.CommandsSpaceFree | cli_local.py:5 | No command contains a space, so every command can be produced by `parse_input`. |
| Cli.CardStr | cli.py:25-28 | The label opens and closes the same style tag around the sign between bars, and can be read back. For a valid card, reading the label gives back exactly the card. |
| Cli.Markup | cli.py:28 | The f-string label of a style and a sign reads back as that style and sign whenever the style holds no `]` and the sign holds no bar character. |
| Cli.ParseMarkupSound | cli_local.py:44 | Whatever the reader accepts is a label in the shape `get_card_str` produces, built from the style and sign it reports. |
| Cli.SuitStyle | cli.py:19-23 | `get_suit_style` yields bold white exactly for wild and for a suit literally named bold white. For every other suit, the suit can be read back from its style. |
| Cli.CardSign | cli.py:27 | `SYMBOLS.get(value, value)` keeps every value that has no entry in `SYMBOLS`, and replaces each value that has one by its first letter, so reverse, skip and wild become r, s and w. Every value other than the letters r, s, w can be read back from its sign. |
| Cli.SuitStyleRoundTrip | cli.py:19-23 | Every suit other than one literally named bold white is recovered from its style by `SuitOfStyle`. |
| Cli.CardSignRoundTrip | cli.py:6-10 | Every value other than the letters r, s, w is recovered from its sign by `ValueOfSign`. |
| Cli.StylesOfSuits | cli_local.py:35-39 | The five suits are drawn in the styles red, green, blue, yellow and bold white. |
| Cli.SignsOfValues | cli_local.py:7-11 | The fifteen values are drawn as `0`…`9`, `+2`, `+4`, `s`, `r`, `color`. The `wild` entry of the table matches no card value. |
| Cli.ValidCardReadable | cli_local.py:41-44 | The label of a valid card is readable, and its style and sign decode to the card's suit and value. |
| Cli.SuitsReadable | cli_local.py:35-39 | No suit style contains `]`, and no suit is itself named bold white, so only wild is drawn in that style. |
| Cli.ValuesReadable | cli_local.py:7-11 | No sign contains a bar character, and no value is itself one of the letters r, s, w. |
| Cli.CardStrInjective | cli_local.py:41-44 | Two valid cards have the same label if and only if they have the same value and suit. |

## Left out

- The turn engine that the front ends import (`Game`, `Play`, `Player`,
  `is_card_playable`) and `game.py`: they are outside the card layer, and
  the turn engine is not part of this model.
- `get_players`, `get_input` (the retrying prompt of `cli_local.py`),
  `print_card`, `print_player_hand` and `main` of the two front ends:
  terminal I/O and the interactive game loop. Of `main`, only
  its input-acceptance loop is modelled, as `Cli.AcceptedLine`.
- The conversion `int(args.strip())` that `main` applies to the arguments
  of `play`: it belongs to the game loop.
- `cli_remote.py` and `webserver.py`: an HTTP client and a Flask server.
- How the `rich` library renders the markup. A label is modelled as the
  string it is.
- The text of the `ValueError` messages: a failure records only which
  check failed and the rejected string.
- Uno.MakeSuit: it requires the suit to have an entry in the dictionary
  already. `Deck.__init__`, its only caller, always creates the entry
  first, so the missing-entry cases never arise. Without an entry,
  `_makedeck` would behave in three ways:
  - for wild it does nothing and returns normally;
  - for a suit outside `SUITS` the first `Card(str(i), suit)` raises
    `ValueError`;
  - for a colour suit it appends the `'0'` card to `cards` and then raises
    `KeyError` on `cards_by_suit[suit]`.
- Card identity: the model compares cards by value and suit. Python
  compares `Card` objects by identity, since `Card` defines no `__eq__`.
  So the deck's two red +2 cards are distinct objects in Python and equal
  values here. Both views of the deck share the very same objects, which
  the model does not track.
- Key order of `cards_by_suit`: a Dafny `map` is unordered. The order is
  stated through `Concat` over `SUITS` instead.
