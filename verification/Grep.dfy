/** grep's regular-expression matcher, and the meaning of its patterns: a way to cut the text into pieces that the
    items of the pattern accept one after the other. Strings are sequences without their terminating NUL. */
module Grep {

  // ---- the meaning of patterns ----

  datatype Atom = Any | Lit(c: char)

  datatype Item = One(a: Atom) | Star(a: Atom) | End

  predicate Fits(a: Atom, c: char) {
    a == Any || a == Lit(c)
  }

  function AtomOf(c: char): (a: Atom) {
    if c == '.' then Any else Lit(c)
  }

  /** A character followed by an asterisk is a star item, whatever the character; a final dollar is the end of the
      text. */
  function Parse(re: string): (items: seq<Item>) {
    if re == "" then []
    else if |re| > 1 && re[1] == '*' then [Star(AtomOf(re[0]))] + Parse(re[2..])
    else if re == "$" then [End]
    else [One(AtomOf(re[0]))] + Parse(re[1..])
  }

  /** Item `x` accepts the piece of the text from `i` to `j`. */
  predicate Accepts(x: Item, text: string, i: nat, j: nat) {
    i <= j <= |text| &&
    match x
    case One(a) => j == i + 1 && Fits(a, text[i])
    case Star(a) => forall p :: i <= p < j ==> Fits(a, text[p])
    case End => i == j == |text|
  }

  /** `cuts` divides a beginning of the text among the items. */
  ghost predicate Cut(items: seq<Item>, text: string, cuts: seq<nat>) {
    && |cuts| == |items| + 1 && cuts[0] == 0
    && forall k :: 0 <= k < |items| ==> Accepts(items[k], text, cuts[k], cuts[k + 1])
  }

  ghost predicate Begins(items: seq<Item>, text: string) {
    exists cuts :: Cut(items, text, cuts)
  }

  /** A pattern matches at the start of the text if it begins with a caret, and else anywhere. */
  ghost predicate Matches(re: string, text: string) {
    if re != "" && re[0] == '^' then Begins(Parse(re[1..]), text)
    else exists k :: 0 <= k <= |text| && Begins(Parse(re), text[k..])
  }

  // ---- cutting off the first item ----

  ghost predicate FirstCut(x: Item, rest: seq<Item>, text: string, k: nat) {
    Accepts(x, text, 0, k) && Begins(rest, text[k..])
  }

  lemma AcceptsShift(x: Item, text: string, k: nat, i: nat, j: nat)
    requires k <= |text|
    ensures Accepts(x, text[k..], i, j) <==> Accepts(x, text, k + i, k + j)
  {
    if x.Star? && Accepts(x, text[k..], i, j) {
      forall p | k + i <= p < k + j
        ensures Fits(x.a, text[p])
      {
        assert text[p] == text[k..][p - k];
      }
    }
  }

  lemma {:induction false} CutsRise(items: seq<Item>, text: string, cuts: seq<nat>, k: nat)
    requires Cut(items, text, cuts) && 1 <= k < |cuts|
    ensures cuts[1] <= cuts[k] <= |text|
  {
    assert Accepts(items[k - 1], text, cuts[k - 1], cuts[k]);
    if k > 1 {
      CutsRise(items, text, cuts, k - 1);
    }
  }

  lemma TailCut(x: Item, rest: seq<Item>, text: string, cuts: seq<nat>)
    requires Cut([x] + rest, text, cuts)
    ensures FirstCut(x, rest, text, cuts[1])
  {
    var items := [x] + rest;
    var k := cuts[1];
    assert Accepts(items[0], text, 0, k);
    forall i | 1 <= i < |cuts|
      ensures k <= cuts[i]
    {
      CutsRise(items, text, cuts, i);
    }
    var tail: seq<nat> := seq(|rest| + 1, i requires 0 <= i <= |rest| => cuts[i + 1] - k);
    forall i | 0 <= i < |rest|
      ensures Accepts(rest[i], text[k..], tail[i], tail[i + 1])
    {
      assert Accepts(items[i + 1], text, cuts[i + 1], cuts[i + 2]);
      AcceptsShift(rest[i], text, k, tail[i], tail[i + 1]);
    }
    assert Cut(rest, text[k..], tail);
  }

  lemma ConsCut(x: Item, rest: seq<Item>, text: string, k: nat)
    requires FirstCut(x, rest, text, k)
    ensures Begins([x] + rest, text)
  {
    var tail :| Cut(rest, text[k..], tail);
    var items := [x] + rest;
    var cuts: seq<nat> := seq(|items| + 1, i requires 0 <= i <= |items| => if i == 0 then 0 else k + tail[i - 1]);
    forall i | 0 <= i < |items|
      ensures Accepts(items[i], text, cuts[i], cuts[i + 1])
    {
      if i > 0 {
        assert Accepts(rest[i - 1], text[k..], tail[i - 1], tail[i]);
        AcceptsShift(rest[i - 1], text, k, tail[i - 1], tail[i]);
      }
    }
    assert Cut(items, text, cuts);
  }

  lemma BeginsIff(x: Item, rest: seq<Item>, text: string)
    ensures Begins([x] + rest, text) <==> exists k :: 0 <= k <= |text| && FirstCut(x, rest, text, k)
  {
    if Begins([x] + rest, text) {
      var cuts :| Cut([x] + rest, text, cuts);
      TailCut(x, rest, text, cuts);
    }
    if k :| 0 <= k <= |text| && FirstCut(x, rest, text, k) {
      ConsCut(x, rest, text, k);
    }
  }

  lemma BeginsNothing(text: string)
    ensures Begins([], text)
  {
    assert Cut([], text, [0]);
  }

  // ---- the matcher ----

  method Match(re: string, text: string) returns (r: bool)
    ensures r <==> Matches(re, text)
  {
    if re != "" && re[0] == '^' {
      r := MatchHere(re[1..], text);
      return;
    }
    var i := 0;
    while true
      invariant 0 <= i <= |text|
      invariant forall k :: 0 <= k < i ==> !Begins(Parse(re), text[k..])
      decreases |text| - i
    {
      var here := MatchHere(re, text[i..]);
      if here {
        return true;
      }
      if i == |text| {
        return false;
      }
      i := i + 1;
    }
  }

  /** Whether `re`, past any caret, matches at the start of the text. */
  method MatchHere(re: string, text: string) returns (r: bool)
    ensures r <==> Begins(Parse(re), text)
    decreases |re|, 0
  {
    if re == "" {
      BeginsNothing(text);
      return true;
    }
    if |re| > 1 && re[1] == '*' {
      r := MatchStar(re[0], re[2..], text);
      return;
    }
    if re == "$" {
      BeginsIff(End, [], text);
      BeginsNothing("");
      assert [End] + [] == [End];
      if text == "" {
        assert FirstCut(End, [], text, 0);
      }
      return text == "";
    }
    BeginsIff(One(AtomOf(re[0])), Parse(re[1..]), text);
    if text != "" && (re[0] == '.' || re[0] == text[0]) {
      r := MatchHere(re[1..], text[1..]);
      assert FirstCut(One(AtomOf(re[0])), Parse(re[1..]), text, 1) <==> r;
      return;
    }
    return false;
  }

  /** Whether any number of `c` and then `re` match at the start of the text. */
  method MatchStar(c: char, re: string, text: string) returns (r: bool)
    ensures r <==> Begins([Star(AtomOf(c))] + Parse(re), text)
    decreases |re|, 1
  {
    BeginsIff(Star(AtomOf(c)), Parse(re), text);
    var i := 0;
    while true
      invariant 0 <= i <= |text| && forall p :: 0 <= p < i ==> Fits(AtomOf(c), text[p])
      invariant forall k :: 0 <= k < i ==> !Begins(Parse(re), text[k..])
      decreases |text| - i
    {
      var here := MatchHere(re, text[i..]);
      if here {
        assert FirstCut(Star(AtomOf(c)), Parse(re), text, i);
        return true;
      }
      if i == |text| || !(text[i] == c || c == '.') {
        assert forall k :: i < k <= |text| ==> !FirstCut(Star(AtomOf(c)), Parse(re), text, k);
        return false;
      }
      i := i + 1;
    }
  }

  // ---- writing patterns ----

  /** A character without a meaning of its own. */
  predicate Plain(c: char) {
    c != '.' && c != '*' && c != '$'
  }

  /** Items that can be written: plain characters, and the end of the text only last. */
  predicate Writable(items: seq<Item>) {
    forall k :: 0 <= k < |items| ==>
      if items[k].End? then k == |items| - 1 else items[k].a.Lit? ==> Plain(items[k].a.c)
  }

  function Char(a: Atom): (c: char) {
    if a.Any? then '.' else a.c
  }

  function Show(items: seq<Item>): (re: string) {
    if items == [] then ""
    else
      (match items[0] case One(a) => [Char(a)] case Star(a) => [Char(a), '*'] case End => "$") + Show(items[1..])
  }

  /** A pattern is read as the items it was written for. */
  lemma {:induction false} PatternTrip(items: seq<Item>)
    requires Writable(items)
    ensures Parse(Show(items)) == items && (Show(items) != "" ==> Show(items)[0] != '*')
    decreases |items|
  {
    if items != [] {
      var (x, rest) := (items[0], items[1..]);
      assert Writable(rest) by {
        assert forall k :: 0 <= k < |rest| ==> rest[k] == items[k + 1];
      }
      PatternTrip(rest);
      assert items == [x] + rest;
      match x
      case One(a) => assert Show(items) == [Char(a)] + Show(rest) && Show(items)[1..] == Show(rest);
      case Star(a) => assert Show(items) == [Char(a), '*'] + Show(rest) && Show(items)[2..] == Show(rest);
      case End => assert rest == [] && Show(items) == "$";
    }
  }

  function Literals(w: string): (items: seq<Item>) {
    seq(|w|, k requires 0 <= k < |w| => One(Lit(w[k])))
  }

  lemma {:induction false} LiteralsBegin(w: string, text: string)
    ensures Begins(Literals(w), text) <==> w <= text
    decreases |w|
  {
    if w == "" {
      BeginsNothing(text);
    } else {
      var (x, rest) := (One(Lit(w[0])), Literals(w[1..]));
      assert Literals(w) == [x] + rest;
      BeginsIff(x, rest, text);
      if text != "" {
        LiteralsBegin(w[1..], text[1..]);
        assert FirstCut(x, rest, text, 1) <==> w[0] == text[0] && w[1..] <= text[1..];
        assert w == [w[0]] + w[1..] && text == [text[0]] + text[1..];
      }
    }
  }

  lemma {:induction false} LiteralsShown(w: string)
    requires forall k :: 0 <= k < |w| ==> Plain(w[k])
    ensures Writable(Literals(w)) && Show(Literals(w)) == w
    decreases |w|
  {
    if w != "" {
      LiteralsShown(w[1..]);
      assert Literals(w)[1..] == Literals(w[1..]);
    }
  }

  /** A pattern of plain characters matches exactly the texts that contain it, and after a caret those that start with
      it. */
  lemma PlainSearch(w: string, text: string)
    requires forall k :: 0 <= k < |w| ==> Plain(w[k])
    ensures w == "" || w[0] != '^' ==> (Matches(w, text) <==> exists k :: 0 <= k <= |text| && w <= text[k..])
    ensures Matches("^" + w, text) <==> w <= text
  {
    LiteralsShown(w);
    PatternTrip(Literals(w));
    LiteralsBegin(w, text);
    forall k | 0 <= k <= |text|
      ensures Begins(Parse(w), text[k..]) <==> w <= text[k..]
    {
      LiteralsBegin(w, text[k..]);
    }
    assert ("^" + w)[1..] == w;
  }
}
