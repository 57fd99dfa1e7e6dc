/**
 * The memory game of Labs/0: the player picks 3 to 7 buttons, sees them numbered
 * and coloured, watches them shuffle, then must click them in number order.
 *
 * `Math.random` is replaced by a sequence of draws, each already reduced to the
 * integer `Math.floor(Math.random() * 185)`; timers are replaced by calls of the
 * methods they would run, and the DOM by the fields it displays.
 */
module MemoryGame {
  import opened Wrappers
  import opened JsString

  // The colour template, cut at its placeholders.
  const RgbOpen := "rgb("
  const RgbSep := ", "
  const RgbClose := ")"
  const RgbTemplate := RgbOpen + "%1" + RgbSep + "%2" + RgbSep + "%3" + RgbClose

  /** The lowest channel offset: channels of colour `i` start at 20 + 10 * i. */
  const ChannelBase := 20
  /** `Math.floor(Math.random() * 185)` lies in 0 .. DrawBound - 1. */
  const DrawBound := 185

  /** One channel of colour `i`, for a draw `r`. */
  function Channel(i: nat, r: nat): nat {
    r + ChannelBase + i * 10
  }

  /** The first `k` channel replacements of colour `i`, with the draws `d` of that colour. */
  function PartialColour(i: nat, d: seq<nat>, k: nat): string
    requires k <= |d|
  {
    if k == 0 then RgbTemplate
    else Replace(PartialColour(i, d, k - 1), "%" + NatToString(k), NatToString(Channel(i, d[k - 1])))
  }

  /** Colour `i`, from its three draws. */
  function Colour(i: nat, d: seq<nat>): string
    requires |d| == 3
  {
    PartialColour(i, d, |d|)
  }

  /** The draws that colour `i` consumes: `Math.random` is called three times per colour. */
  function DrawsOf(draws: seq<nat>, i: nat): seq<nat>
    requires 3 * i + 3 <= |draws|
  {
    draws[3 * i..3 * i + 3]
  }

  predicate DrawsInRange(draws: seq<nat>) {
    forall k :: 0 <= k < |draws| ==> draws[k] < DrawBound
  }

  /** The placeholder the `k`-th replacement looks for. */
  lemma PlaceholderText()
    ensures "%" + NatToString(1) == "%1" && "%" + NatToString(2) == "%2" && "%" + NatToString(3) == "%3"
  {
  }

  /**
   * The `k`-th replacement: when the colour so far is `p + "%k" + t` and `p` holds
   * no `%`, the channel's decimal form lands exactly where `%k` stood.
   */
  lemma FillChannel(i: nat, d: seq<nat>, k: nat, p: string, t: string)
    requires 1 <= k <= |d|
    requires PartialColour(i, d, k - 1) == p + ("%" + NatToString(k)) + t
    requires '%' !in p
    ensures PartialColour(i, d, k) == p + NatToString(Channel(i, d[k - 1])) + t
  {
    NatToStringPlain(Channel(i, d[k - 1]));
    ReplaceFirstLead(p, "%" + NatToString(k), t, NatToString(Channel(i, d[k - 1])));
  }

  /** The colour string is `rgb(a, b, c)` with the decimal channels spliced in. */
  lemma ColourLayout(i: nat, d: seq<nat>)
    requires |d| == 3
    ensures Colour(i, d) == RgbOpen + NatToString(Channel(i, d[0])) + RgbSep + NatToString(Channel(i, d[1]))
                          + RgbSep + NatToString(Channel(i, d[2])) + RgbClose
  {
    var a, b := NatToString(Channel(i, d[0])), NatToString(Channel(i, d[1]));
    NatToStringPlain(Channel(i, d[0]));
    NatToStringPlain(Channel(i, d[1]));
    PlaceholderText();
    var t2 := RgbSep + "%3" + RgbClose;
    var t1 := RgbSep + "%2" + t2;
    TemplateParts();
    FillChannel(i, d, 1, RgbOpen, t1);
    var p2 := RgbOpen + a + RgbSep;
    Regroup(RgbOpen + a, RgbSep, "%2", t2);
    FillChannel(i, d, 2, p2, t2);
    var p3 := p2 + b + RgbSep;
    Regroup(p2 + b, RgbSep, "%3", RgbClose);
    FillChannel(i, d, 3, p3, RgbClose);
  }

  /** The template cut at its first placeholder, the rest cut at the second. */
  lemma TemplateParts()
    ensures RgbTemplate == RgbOpen + "%1" + (RgbSep + "%2" + (RgbSep + "%3" + RgbClose))
    ensures '%' !in RgbOpen && '%' !in RgbSep
  {
  }

  /** Every channel of colour `i` lies in [20 + 10i, 204 + 10i]. */
  lemma ChannelBounds(i: nat, r: nat)
    requires r < DrawBound
    ensures 20 + 10 * i <= Channel(i, r) <= 204 + 10 * i
  {
  }

  /** The colours of a game with `n` buttons, colour `i` from the draws `3i .. 3i + 2`. */
  function Colours(n: nat, draws: seq<nat>): (r: seq<string>)
    requires 3 * n <= |draws|
    ensures |r| == n
  {
    seq(n, i requires 0 <= i < n => Colour(i, DrawsOf(draws, i)))
  }

  /** The inner loop of `GameField.#generateRandomColours`: the three channel replacements of colour `i`. */
  method GenerateColour(i: nat, d: seq<nat>) returns (colour: string)
    requires |d| == 3
    ensures colour == Colour(i, d)
  {
    colour := RgbTemplate;
    for j := 1 to 4
      invariant colour == PartialColour(i, d, j - 1)
    {
      var randVal := d[j - 1] + ChannelBase + i * 10;
      colour := Replace(colour, "%" + NatToString(j), NatToString(randVal));
    }
  }

  /** `GameField.#generateRandomColours`: one colour per button, from three draws each. */
  method GenerateRandomColours(numOfButtons: nat, draws: seq<nat>) returns (colours: seq<string>)
    requires 3 * numOfButtons <= |draws|
    ensures colours == Colours(numOfButtons, draws)
  {
    colours := [];
    for i := 0 to numOfButtons
      invariant |colours| == i
      invariant forall k :: 0 <= k < i ==> colours[k] == Colour(k, DrawsOf(draws, k))
    {
      var colour := GenerateColour(i, DrawsOf(draws, i));
      colours := colours + [colour];
    }
  }

  /** Every generated colour is `rgb(a, b, c)` with each channel in its band. */
  lemma GeneratedColours(numOfButtons: nat, draws: seq<nat>, i: nat)
    requires 3 * numOfButtons <= |draws| && DrawsInRange(draws) && i < numOfButtons
    ensures exists a: nat, b: nat, c: nat ::
      20 + 10 * i <= a <= 204 + 10 * i && 20 + 10 * i <= b <= 204 + 10 * i && 20 + 10 * i <= c <= 204 + 10 * i &&
      Colour(i, DrawsOf(draws, i)) == RgbOpen + NatToString(a) + RgbSep + NatToString(b) + RgbSep + NatToString(c) + RgbClose
  {
    var d := DrawsOf(draws, i);
    assert d[0] == draws[3 * i] && d[1] == draws[3 * i + 1] && d[2] == draws[3 * i + 2];
    ColourLayout(i, d);
    var a, b, c := Channel(i, d[0]), Channel(i, d[1]), Channel(i, d[2]);
    ChannelBounds(i, d[0]);
    ChannelBounds(i, d[1]);
    ChannelBounds(i, d[2]);
  }

  /**
   * `Array.prototype.sort`, which is stable: each element is inserted after every
   * earlier one that does not compare greater than it.
   */
  function SortBy(xs: seq<string>, cmp: (string, string) -> int): (r: seq<string>)
    ensures |r| == |xs|
  {
    if xs == [] then []
    else InsertBy(SortBy(xs[..|xs| - 1], cmp), xs[|xs| - 1], cmp)
  }

  function InsertBy(s: seq<string>, x: string, cmp: (string, string) -> int): (r: seq<string>)
    ensures |r| == |s| + 1
  {
    if s == [] || cmp(s[|s| - 1], x) <= 0 then s + [x]
    else InsertBy(s[..|s| - 1], x, cmp) + [s[|s| - 1]]
  }

  /** Inserting adds exactly one copy of `x`. */
  lemma {:induction false} InsertByPermutes(s: seq<string>, x: string, cmp: (string, string) -> int)
    ensures multiset(InsertBy(s, x, cmp)) == multiset(s) + multiset{x}
  {
    if s != [] && cmp(s[|s| - 1], x) > 0 {
      var init, last := s[..|s| - 1], s[|s| - 1];
      InsertByPermutes(init, x, cmp);
      assert s == init + [last];
    }
  }

  /** Sorting permutes: every element keeps its number of occurrences. */
  lemma {:induction false} SortByPermutes(xs: seq<string>, cmp: (string, string) -> int)
    ensures multiset(SortBy(xs, cmp)) == multiset(xs)
  {
    if xs != [] {
      var init, last := xs[..|xs| - 1], xs[|xs| - 1];
      assert SortBy(xs, cmp) == InsertBy(SortBy(init, cmp), last, cmp);
      SortByPermutes(init, cmp);
      InsertByPermutes(SortBy(init, cmp), last, cmp);
      assert xs == init + [last];
    }
  }

  /**
   * The comparator `() => { Math.random() - 0.5; }` returns `undefined`, which the
   * sort reads as NaN and so as 0: every pair compares equal.
   */
  function UndefinedComparator(a: string, b: string): int {
    0
  }

  /** Under that comparator an inserted element goes to the end. */
  lemma InsertByEqualAppends(s: seq<string>, x: string)
    ensures InsertBy(s, x, UndefinedComparator) == s + [x]
  {
    if s != [] {
      assert UndefinedComparator(s[|s| - 1], x) == 0;
    }
  }

  /** With a comparator that finds every pair equal, the stable sort changes nothing. */
  lemma {:induction false} SortByEqualKeeps(xs: seq<string>)
    ensures SortBy(xs, UndefinedComparator) == xs
  {
    if xs != [] {
      var init, last := xs[..|xs| - 1], xs[|xs| - 1];
      assert SortBy(xs, UndefinedComparator) == InsertBy(SortBy(init, UndefinedComparator), last, UndefinedComparator);
      SortByEqualKeeps(init);
      InsertByEqualAppends(init, last);
      assert init + [last] == xs;
    }
  }

  /** A game button: the number it shows and its background colour. */
  datatype Button = Button(number: nat, colour: string)

  /** Buttons 1 .. n, button i with colour `colours[i - 1]`; index 0 stays empty. */
  ghost predicate NumberedFrom(buttons: map<int, Button>, colours: seq<string>) {
    && (forall i :: i in buttons <==> 1 <= i <= |colours|)
    && forall i :: 1 <= i <= |colours| ==> buttons[i] == Button(i, colours[i - 1])
  }

  /** The loop of `#generateButtons`: a fresh array with button `i` at index `i`, for i = 1 .. n. */
  method NumberButtons(colours: seq<string>) returns (numbered: map<int, Button>)
    ensures NumberedFrom(numbered, colours)
  {
    numbered := map[];
    for i := 1 to |colours| + 1
      invariant forall k :: k in numbered <==> 1 <= k < i
      invariant forall k :: 1 <= k < i ==> numbered[k] == Button(k, colours[k - 1])
    {
      numbered := numbered[i := Button(i, colours[i - 1])];
    }
  }

  /** The field holding the buttons. Positions on screen are not modelled, only how often they were shuffled. */
  class GameField {
    var buttons: map<int, Button>
    var shuffles: nat
    /** Whether the buttons now on the field carry click listeners. */
    var clickable: bool

    constructor()
      ensures buttons == map[] && shuffles == 0 && !clickable
    {
      buttons := map[];
      shuffles := 0;
      clickable := false;
    }

    /**
     * `#generateButtons` (and `displayButtons`, which then shows them). The buttons
     * are new, so none of them has a click listener yet.
     */
    method GenerateButtons(numOfButtons: nat, draws: seq<nat>)
      requires 3 * numOfButtons <= |draws|
      modifies this
      ensures NumberedFrom(buttons, Colours(numOfButtons, draws))
      ensures shuffles == old(shuffles) && !clickable
    {
      var generated := GenerateRandomColours(numOfButtons, draws);
      var colours := SortBy(generated, UndefinedComparator);
      buttons := NumberButtons(colours);
      clickable := false;
      SortByEqualKeeps(generated);
    }

    /** `shuffleButtons`: every button moves to a random place. */
    method ShuffleButtons()
      modifies this
      ensures shuffles == old(shuffles) + 1
      ensures buttons == old(buttons) && clickable == old(clickable)
    {
      shuffles := shuffles + 1;
    }

    /** `makeButtonsClickable`: the click listeners are attached. */
    method MakeButtonsClickable()
      modifies this
      ensures clickable
      ensures buttons == old(buttons) && shuffles == old(shuffles)
    {
      clickable := true;
    }

    /** `clearBoard`: the field is emptied, and with the buttons go their listeners. */
    method ClearBoard()
      modifies this
      ensures buttons == map[] && !clickable
      ensures shuffles == old(shuffles)
    {
      buttons := map[];
      clickable := false;
    }
  }

  /** `/^([3-7]{1})$/`: exactly one character, a digit from 3 to 7. */
  predicate ValidInput(s: string) {
    |s| == 1 && '3' <= s[0] <= '7'
  }

  /** `#getUserInput`: the number typed when it is valid, -1 otherwise. */
  function UserInput(s: string): (r: int)
    ensures r > 0 <==> ValidInput(s)
    ensures r > 0 ==> 3 <= r <= 7 && NatToString(r) == s
    ensures r <= 0 ==> r == -1
  {
    if ValidInput(s) then DigitRoundTrip(s); ParseDigits(s) else -1
  }

  /** `parseInt` of a valid input is its digit, which prints back as the input. */
  lemma DigitRoundTrip(s: string)
    requires ValidInput(s)
    ensures 3 <= ParseDigits(s) <= 7 && NatToString(ParseDigits(s)) == s
  {
    assert s[..0] == [];
    var d := s[0] as int - '0' as int;
    assert ParseDigits(s) == d;
    assert NatToString(d) == [DigitChar(d)] == [s[0]] == s;
  }

  datatype EndMessage = Lose | Win

  /** What the menu shows. */
  datatype Screen = Blank | StartMenu | EndMenu(message: EndMessage)

  /** The menu: its message, its button's role, and the number field. */
  class Menu {
    var screen: Screen
    var inputValue: string
    var inputVisible: bool

    constructor()
      ensures screen == Blank && inputValue == "" && !inputVisible
    {
      screen := Blank;
      inputValue := "";
      inputVisible := false;
    }

    /** `showStartMenu`: start message, the input emptied and shown. */
    method ShowStartMenu()
      modifies this
      ensures screen == StartMenu && inputValue == "" && inputVisible
    {
      screen := StartMenu;
      inputValue := "";
      inputVisible := true;
    }

    /** `showGameEndMenu`: the end message and the input hidden. */
    method ShowGameEndMenu(message: EndMessage)
      modifies this
      ensures screen == EndMenu(message) && !inputVisible && inputValue == old(inputValue)
    {
      screen := EndMenu(message);
      inputVisible := false;
    }
  }

  /**
   * The menu shown by `checkOrder` once `order` has been advanced, if any: the lose
   * test and the win test are independent, and the win menu is shown last.
   */
  function Verdict(order: int, numOfButtons: int, num: int): (r: Option<EndMessage>)
    ensures r == Some(Win) <==> order == numOfButtons
    ensures r == Some(Lose) <==> order != num && order != numOfButtons
    ensures r == None <==> order == num && order != numOfButtons
  {
    if order == numOfButtons then Some(Win)
    else if order != num then Some(Lose)
    else None
  }

  /** The first end menu reached by clicking `nums` in turn, starting from `order`. */
  function FirstVerdict(order: int, numOfButtons: int, nums: seq<int>): Option<EndMessage>
    decreases |nums|
  {
    if nums == [] then None
    else
      var v := Verdict(order + 1, numOfButtons, nums[0]);
      if v.Some? then v else FirstVerdict(order + 1, numOfButtons, nums[1..])
  }

  /** A wrong click on the last button still ends on the win menu. */
  lemma WrongFinalClickWins(numOfButtons: int, num: int)
    requires num != numOfButtons
    ensures Verdict(numOfButtons, numOfButtons, num) == Some(Win)
  {
  }

  /** Clicking correctly up to the second-to-last button wins, whatever the last click. */
  lemma {:induction false} NoEarlyMistakeWins(order: nat, numOfButtons: nat, nums: seq<int>)
    requires order < numOfButtons && numOfButtons - order <= |nums|
    requires forall k :: 0 <= k < numOfButtons - order - 1 ==> nums[k] == order + k + 1
    ensures FirstVerdict(order, numOfButtons, nums) == Some(Win)
    decreases numOfButtons - order
  {
    if order + 1 < numOfButtons {
      assert Verdict(order + 1, numOfButtons, nums[0]) == None;
      NoEarlyMistakeWins(order + 1, numOfButtons, nums[1..]);
    }
  }

  /** The first wrong click before the last button loses. */
  lemma {:induction false} FirstMistakeLoses(order: nat, numOfButtons: nat, nums: seq<int>, j: nat)
    requires order + j + 1 < numOfButtons && j < |nums|
    requires forall k :: 0 <= k < j ==> nums[k] == order + k + 1
    requires nums[j] != order + j + 1
    ensures FirstVerdict(order, numOfButtons, nums) == Some(Lose)
    decreases j
  {
    if j > 0 {
      assert Verdict(order + 1, numOfButtons, nums[0]) == None;
      FirstMistakeLoses(order + 1, numOfButtons, nums[1..], j - 1);
    }
  }

  /** The game: its field, its menu, the button count and the click counter. */
  class Game {
    const gamefield: GameField
    const menu: Menu
    var numOfButtons: int
    var order: int

    constructor()
      ensures numOfButtons == 0 && order == 0
      ensures fresh(gamefield) && fresh(menu)
      ensures gamefield.buttons == map[] && gamefield.shuffles == 0 && !gamefield.clickable
      ensures menu.screen == Blank
    {
      gamefield := new GameField();
      menu := new Menu();
      numOfButtons := 0;
      order := 0;
    }

    /** `play`: the counter reset, the board cleared, the start menu shown. */
    method Play()
      modifies this, gamefield, menu
      ensures order == 0 && numOfButtons == old(numOfButtons)
      ensures gamefield.buttons == map[] && !gamefield.clickable
      ensures gamefield.shuffles == old(gamefield.shuffles)
      ensures menu.screen == StartMenu && menu.inputValue == "" && menu.inputVisible
    {
      order := 0;
      gamefield.ClearBoard();
      menu.ShowStartMenu();
    }

    /** The start button's handler in `showStartMenu`: starts a game only for a valid count. */
    method PressStart(draws: seq<nat>)
      requires 3 * 7 <= |draws|
      modifies this, gamefield
      ensures UserInput(old(menu.inputValue)) > 0 ==>
        && numOfButtons == UserInput(old(menu.inputValue))
        && NumberedFrom(gamefield.buttons, Colours(numOfButtons, draws))
        && !gamefield.clickable
      ensures UserInput(old(menu.inputValue)) <= 0 ==>
        && numOfButtons == old(numOfButtons) && gamefield.buttons == old(gamefield.buttons)
        && gamefield.clickable == old(gamefield.clickable)
      ensures order == old(order)
      ensures gamefield.shuffles == old(gamefield.shuffles)
    {
      var input := UserInput(menu.inputValue);
      if input > 0 {
        StartGame(input, draws);
      }
    }

    /** `startGame`: the count recorded and the numbered buttons displayed. */
    method StartGame(n: nat, draws: seq<nat>)
      requires 3 * n <= |draws|
      modifies this, gamefield
      ensures numOfButtons == n && order == old(order)
      ensures NumberedFrom(gamefield.buttons, Colours(n, draws)) && !gamefield.clickable
      ensures gamefield.shuffles == old(gamefield.shuffles)
    {
      numOfButtons := n;
      gamefield.GenerateButtons(n, draws);
    }

    /**
     * `shuffleButtons`: one shuffle at once, then one per interval tick until the
     * count reaches `numOfButtons`, when the buttons become clickable.
     */
    method ShuffleButtons()
      modifies gamefield
      ensures gamefield.shuffles == old(gamefield.shuffles) + (if numOfButtons > 1 then numOfButtons else 1)
      ensures gamefield.clickable && gamefield.buttons == old(gamefield.buttons)
    {
      gamefield.ShuffleButtons();
      var shuffleCount := 1;
      while shuffleCount < numOfButtons
        invariant 1 <= shuffleCount && (numOfButtons > 1 ==> shuffleCount <= numOfButtons)
        invariant numOfButtons <= 1 ==> shuffleCount == 1
        invariant gamefield.shuffles == old(gamefield.shuffles) + shuffleCount
        invariant gamefield.buttons == old(gamefield.buttons)
        decreases numOfButtons - shuffleCount
      {
        gamefield.ShuffleButtons();
        shuffleCount := shuffleCount + 1;
      }
      gamefield.MakeButtonsClickable();
    }

    /** `checkOrder`: advances the counter, then shows the verdict, if any, and clears the board. */
    method CheckOrder(num: int)
      modifies this, gamefield, menu
      ensures order == old(order) + 1 && numOfButtons == old(numOfButtons)
      ensures Verdict(order, numOfButtons, num).Some? ==>
        && menu.screen == EndMenu(Verdict(order, numOfButtons, num).value) && !menu.inputVisible
        && gamefield.buttons == map[] && !gamefield.clickable
      ensures Verdict(order, numOfButtons, num).None? ==>
        && menu.screen == old(menu.screen) && menu.inputVisible == old(menu.inputVisible)
        && gamefield.buttons == old(gamefield.buttons) && gamefield.clickable == old(gamefield.clickable)
      ensures menu.inputValue == old(menu.inputValue)
      ensures gamefield.shuffles == old(gamefield.shuffles)
    {
      order := order + 1;
      if order != num {
        menu.ShowGameEndMenu(Lose);
        gamefield.ClearBoard();
      }
      if order == numOfButtons {
        menu.ShowGameEndMenu(Win);
        gamefield.ClearBoard();
      }
    }
  }
}
