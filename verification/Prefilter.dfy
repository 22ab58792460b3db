/**
 The literal prefilter of the find query: a substring that every match of a simple regular
 expression contains, and the scan that uses it.
 */
module Prefilter {
  import opened Wrappers
  import opened TopK
  import opened Names

  // ---------------------------------------------------------------------------
  // Patterns
  // ---------------------------------------------------------------------------

  datatype Quantifier = Star | Plus | Optional

  datatype Item =
    | Char(c: char)
    | AnyChar
    | LineStart
    | LineEnd
    | Repeat(body: Item, q: Quantifier)

  predicate IsQuantifier(c: char) {
    c == '*' || c == '+' || c == '?'
  }

  function QuantifierOf(c: char): Quantifier {
    if c == '*' then Star else if c == '+' then Plus else Optional
  }

  /** Alternation, groups, brackets and braces. */
  predicate IsSpecial(c: char) {
    c == '|' || c == '(' || c == ')' || c == '[' || c == ']' || c == '{' || c == '}'
  }

  predicate Escapable(c: char) {
    c in ".^$*+?()[]{}|/\\"
  }

  /** The pattern from `i` on uses only literals, escaped punctuation, `.`, `^`, `$` and `*`, `+`, `?`. */
  predicate SimpleFrom(text: string, i: nat)
    decreases |text| - i
  {
    i < |text| ==>
      if text[i] == '\\' then i + 1 < |text| && Escapable(text[i + 1]) && SimpleFrom(text, i + 2)
      else !IsSpecial(text[i]) && SimpleFrom(text, i + 1)
  }

  /** The item that starts at `i`, without its quantifiers, and where it ends. */
  function AtomAt(text: string, i: nat): (r: Option<(Item, nat)>)
    requires i < |text|
    ensures r.Some? ==> i < r.value.1 <= |text|
  {
    var c := text[i];
    if IsSpecial(c) || IsQuantifier(c) then None
    else if c == '\\' then
      if i + 1 < |text| && Escapable(text[i + 1]) then Some((Char(text[i + 1]), i + 2)) else None
    else if c == '.' then Some((AnyChar, i + 1))
    else if c == '^' then Some((LineStart, i + 1))
    else if c == '$' then Some((LineEnd, i + 1))
    else Some((Char(c), i + 1))
  }

  /** Where the quantifiers that start at `i` end. */
  function QuantifiersEnd(text: string, i: nat): (e: nat)
    ensures i <= |text| ==> i <= e <= |text|
    decreases |text| - i
  {
    if i < |text| && IsQuantifier(text[i]) then QuantifiersEnd(text, i + 1) else i
  }

  /** A quantifier at `i` and the lazy mark after it. */
  function QuantifierEnd(text: string, i: nat): nat {
    if i + 1 < |text| && text[i + 1] == '?' then i + 2 else i + 1
  }

  /** An item with the quantifiers that start at `i`, each applied to what stands before it. */
  function Quantified(text: string, item: Item, i: nat): Item
    decreases |text| - i
  {
    if i < |text| && IsQuantifier(text[i])
    then Quantified(text, Repeat(item, QuantifierOf(text[i])), QuantifierEnd(text, i))
    else item
  }

  /** The items of the pattern from `i` on. */
  function ParseFrom(text: string, i: nat): Option<seq<Item>>
    decreases |text| - i
  {
    if i >= |text| then Some([])
    else
      match AtomAt(text, i)
      case None => None
      case Some((item, next)) =>
        match ParseFrom(text, QuantifiersEnd(text, next))
        case None => None
        case Some(rest) => Some([Quantified(text, item, next)] + rest)
  }

  /** A simple pattern parses unless it starts with a quantifier, which repeats nothing. */
  lemma {:induction false} SimpleParses(text: string, i: nat)
    requires i <= |text|
    ensures ParseFrom(text, i).Some? <==> SimpleFrom(text, i) && (i < |text| ==> !IsQuantifier(text[i]))
    decreases |text| - i
  {
    if i < |text| && AtomAt(text, i).Some? {
      var next := AtomAt(text, i).value.1;
      SkipSimple(text, next);
      SimpleParses(text, QuantifiersEnd(text, next));
    }
  }

  lemma {:induction false} SkipSimple(text: string, i: nat)
    requires i <= |text|
    ensures SimpleFrom(text, QuantifiersEnd(text, i)) == SimpleFrom(text, i)
    ensures var e := QuantifiersEnd(text, i); e < |text| ==> !IsQuantifier(text[e])
    decreases |text| - i
  {
    if i < |text| && IsQuantifier(text[i]) {
      SkipSimple(text, i + 1);
    }
  }

  // ---------------------------------------------------------------------------
  // Matching
  // ---------------------------------------------------------------------------

  /** The item matches s[i..k]. */
  ghost predicate MatchItem(item: Item, s: string, i: nat, k: nat)
    requires i <= k <= |s|
    decreases item, 0, 0
  {
    match item
    case Char(c) => k == i + 1 && s[i] == c
    case AnyChar => k == i + 1 && s[i] != '\n' && s[i] != '\r'
    case LineStart => k == i == 0
    case LineEnd => k == i == |s|
    case Repeat(body, Star) => MatchMany(body, s, i, k)
    case Repeat(body, Plus) => exists m: nat :: i <= m <= k && MatchItem(body, s, i, m) && MatchMany(body, s, m, k)
    case Repeat(body, Optional) => i == k || MatchItem(body, s, i, k)
  }

  /** Any number of matches of the item, one after the other. */
  ghost predicate MatchMany(item: Item, s: string, i: nat, k: nat)
    requires i <= k <= |s|
    decreases item, 1, k - i
  {
    i == k || exists m: nat :: i < m <= k && MatchItem(item, s, i, m) && MatchMany(item, s, m, k)
  }

  ghost predicate MatchItems(items: seq<Item>, s: string, i: nat, j: nat)
    requires i <= j <= |s|
    decreases |items|
  {
    if items == [] then i == j
    else exists k: nat :: i <= k <= j && MatchItem(items[0], s, i, k) && MatchItems(items[1..], s, k, j)
  }

  /** The items match somewhere in `s`. */
  ghost predicate SearchFinds(items: seq<Item>, s: string) {
    exists i: nat, j: nat :: i <= j <= |s| && MatchItems(items, s, i, j)
  }

  predicate OccursAt(s: string, w: string, p: nat) {
    p + |w| <= |s| && w == s[p..p + |w|]
  }

  predicate Contains(s: string, w: string) {
    exists p: nat :: p <= |s| && OccursAt(s, w, p)
  }

  // ---------------------------------------------------------------------------
  // Runs of required characters
  // ---------------------------------------------------------------------------

  predicate RequiredChar(item: Item) {
    item.Char? || (item.Repeat? && item.q == Plus && item.body.Char?)
  }

  predicate AllChars(items: seq<Item>, a: nat, b: nat)
    requires b <= |items|
  {
    forall k :: a <= k < b ==> items[k].Char?
  }

  /** Items a, ..., b - 1 each need one character; only the last may repeat. */
  ghost predicate Window(items: seq<Item>, a: nat, b: nat) {
    && a < b <= |items|
    && AllChars(items, a, b - 1)
    && RequiredChar(items[b - 1])
  }

  function CharOf(item: Item): char {
    match item
    case Char(c) => c
    case Repeat(body, _) => CharOf(body)
    case _ => ' '
  }

  /** `w` spells the required characters from item `a` on. */
  ghost predicate Spells(items: seq<Item>, a: nat, w: string) {
    Window(items, a, a + |w|) && forall k :: a <= k < a + |w| ==> CharOf(items[k]) == w[k - a]
  }

  /** A literal under more than one quantifier; the analysis gives up on it. */
  predicate StackedChar(item: Item) {
    item.Repeat? && item.body.Repeat? && BaseOf(item).Char?
  }

  function BaseOf(item: Item): Item {
    if item.Repeat? then BaseOf(item.body) else item
  }

  /** A match of the items contains every run of required characters. */
  lemma {:induction false} RunIsContained(items: seq<Item>, a: nat, w: string, s: string, i: nat, j: nat)
    requires i <= j <= |s| && MatchItems(items, s, i, j) && Spells(items, a, w)
    ensures Contains(s, w)
  {
    var k: nat :| i <= k <= j && MatchItem(items[0], s, i, k) && MatchItems(items[1..], s, k, j);
    if a > 0 {
      var rest := items[1..];
      assert forall m :: 0 <= m < |rest| ==> rest[m] == items[m + 1];
      assert Spells(rest, a - 1, w);
      RunIsContained(rest, a - 1, w, s, k, j);
    } else {
      RunIsHere(items, w, s, i, j);
    }
  }

  lemma {:induction false} RequiredHere(item: Item, s: string, i: nat, k: nat)
    requires i <= k <= |s| && RequiredChar(item) && MatchItem(item, s, i, k)
    ensures i < k && s[i] == CharOf(item)
  {
    if item.Repeat? {
      var m: nat :| i <= m <= k && MatchItem(item.body, s, i, m) && MatchMany(item.body, s, m, k);
      assert MatchItem(item.body, s, i, m);
    }
  }

  lemma {:induction false} RunIsHere(items: seq<Item>, w: string, s: string, i: nat, j: nat)
    requires i <= j <= |s| && MatchItems(items, s, i, j) && Spells(items, 0, w)
    ensures OccursAt(s, w, i)
    decreases |w|
  {
    var k: nat :| i <= k <= j && MatchItem(items[0], s, i, k) && MatchItems(items[1..], s, k, j);
    assert CharOf(items[0]) == w[0];
    RequiredHere(items[0], s, i, k);
    if |w| > 1 {
      var rest := items[1..];
      assert items[0].Char?;
      assert forall m :: 0 <= m < |rest| ==> rest[m] == items[m + 1];
      assert Spells(rest, 0, w[1..]);
      RunIsHere(rest, w[1..], s, i + 1, j);
      assert w == [w[0]] + w[1..];
      assert s[i..i + |w|] == [s[i]] + s[i + 1..i + 1 + |w[1..]|];
    }
  }

  lemma {:induction false} QuantifiedBase(text: string, item: Item, i: nat)
    ensures BaseOf(Quantified(text, item, i)) == BaseOf(item)
    ensures item.Repeat? ==> Quantified(text, item, i).Repeat?
    ensures item.Repeat? && item.body.Repeat? ==>
              Quantified(text, item, i).Repeat? && Quantified(text, item, i).body.Repeat?
    decreases |text| - i
  {
    if i < |text| && IsQuantifier(text[i]) {
      QuantifiedBase(text, Repeat(item, QuantifierOf(text[i])), QuantifierEnd(text, i));
    }
  }

  // ---------------------------------------------------------------------------
  // The analysis
  // ---------------------------------------------------------------------------

  /** The scan has read the first `n` items; `run` ends there. */
  ghost predicate Scanned(items: seq<Item>, n: nat, best: string, run: string) {
    && |run| <= n <= |items|
    && (forall k :: n - |run| <= k < n ==> items[k] == Char(run[k - (n - |run|)]))
    && (best == [] || exists a: nat :: a < n && Spells(items, a, best))
    && (forall a: nat, b: nat :: b <= n && Window(items, a, b) ==> b - a <= |best| || b - a <= |run|)
    && (forall a: nat :: a < n && AllChars(items, a, n) ==> n - a <= |run|)
    && (forall k :: 0 <= k < n ==> !StackedChar(items[k]))
  }

  function Longer(run: string, best: string): string {
    if |run| > |best| then run else best
  }

  /** Closing the current run. */
  lemma {:induction false} EndRun(items: seq<Item>, n: nat, best: string, run: string)
    requires Scanned(items, n, best, run)
    requires n == |items| || !items[n].Char? || |run| == 0
    ensures var longest := Longer(run, best);
            && (longest == [] || exists a: nat :: a < n && Spells(items, a, longest))
            && forall a: nat, b: nat :: b <= n && Window(items, a, b) ==> b - a <= |longest|
  {
    if |run| > |best| {
      assert Spells(items, n - |run|, run);
    }
  }

  /** A required character that may not repeat. */
  lemma {:induction false} ReadChar(items: seq<Item>, n: nat, best: string, run: string)
    requires Scanned(items, n, best, run) && n < |items| && items[n].Char?
    ensures Scanned(items, n + 1, best, run + [items[n].c])
  {
    var next := run + [items[n].c];
    var m := n + 1;
    forall a: nat | a < m && AllChars(items, a, m)
      ensures m - a <= |next|
    {
      assert AllChars(items, a, n);
    }
    forall a: nat, b: nat | b <= n + 1 && Window(items, a, b)
      ensures b - a <= |best| || b - a <= |next|
    {
      if b == n + 1 && a < n {
        assert AllChars(items, a, n);
      }
    }
  }

  /** An item that ends the run before it. */
  lemma {:induction false} ReadOther(items: seq<Item>, n: nat, best: string, run: string)
    requires Scanned(items, n, best, run) && n < |items| && !RequiredChar(items[n]) && !StackedChar(items[n])
    ensures Scanned(items, n + 1, Longer(run, best), "")
  {
    EndRun(items, n, best, run);
  }

  /** A required character that may repeat: the run ends with it. */
  lemma {:induction false} ReadPlus(items: seq<Item>, n: nat, best: string, run: string)
    requires Scanned(items, n, best, run) && n < |items| && RequiredChar(items[n]) && !items[n].Char?
    ensures var next := run + [CharOf(items[n])];
            Scanned(items, n + 1, Longer(next, best), "")
  {
    var next := run + [CharOf(items[n])];
    assert Window(items, n - |run|, n + 1);
    assert Spells(items, n - |run|, next);
    forall a: nat, b: nat | b <= n + 1 && Window(items, a, b)
      ensures b - a <= |best| || b - a <= |next|
    {
      if b == n + 1 && a < n {
        assert AllChars(items, a, n);
      }
    }
  }

  /** The name matches the pattern somewhere, for a pattern that parses. */
  ghost predicate Matches(pattern: string, s: string) {
    ParseFrom(pattern, 0).Some? && SearchFinds(ParseFrom(pattern, 0).value, s)
  }

  /** A pattern of ordinary characters only. */
  predicate Plain(text: string) {
    forall i :: 0 <= i < |text| ==> PlainChar(text[i])
  }

  predicate PlainChar(c: char) {
    !IsSpecial(c) && !IsQuantifier(c) && c != '\\' && c != '.' && c != '^' && c != '$'
  }

  function CharsOf(text: string): seq<Item> {
    seq(|text|, i requires 0 <= i < |text| => Char(text[i]))
  }

  lemma {:induction false} PlainItems(w: string, i: nat)
    requires i <= |w| && Plain(w)
    ensures ParseFrom(w, i) == Some(CharsOf(w[i..]))
    decreases |w| - i
  {
    if i < |w| {
      PlainItem(w, i);
      PlainItems(w, i + 1);
      assert CharsOf(w[i..]) == [Char(w[i])] + CharsOf(w[i + 1..]);
    } else {
      assert CharsOf(w[i..]) == [];
    }
  }

  lemma {:induction false} PlainItem(w: string, i: nat)
    requires i < |w| && Plain(w)
    ensures AtomAt(w, i) == Some((Char(w[i]), i + 1)) && QuantifiersEnd(w, i + 1) == i + 1
    ensures Quantified(w, Char(w[i]), i + 1) == Char(w[i])
  {
    assert PlainChar(w[i]);
    assert i + 1 < |w| ==> PlainChar(w[i + 1]);
  }

  /** Characters match exactly themselves. */
  lemma {:induction false} CharsMatch(w: string, s: string, i: nat, j: nat)
    requires i <= j <= |s|
    ensures MatchItems(CharsOf(w), s, i, j) <==> s[i..j] == w
  {
    if w != [] {
      assert CharsOf(w)[1..] == CharsOf(w[1..]);
      if i < j {
        CharsMatch(w[1..], s, i + 1, j);
        assert MatchItem(Char(w[0]), s, i, i + 1) <==> s[i] == w[0];
        assert s[i..j] == [s[i]] + s[i + 1..j];
        assert w == [w[0]] + w[1..];
      }
    }
  }

  /** A pattern of ordinary characters matches exactly the names that contain it. */
  lemma {:induction false} PlainSearch(w: string, s: string)
    requires Plain(w)
    ensures Matches(w, s) <==> Contains(s, w)
  {
    PlainItems(w, 0);
    assert w[0..] == w;
    if Matches(w, s) {
      var i: nat, j: nat :| i <= j <= |s| && MatchItems(CharsOf(w), s, i, j);
      CharsMatch(w, s, i, j);
      assert OccursAt(s, w, i);
    }
    if Contains(s, w) {
      var p: nat :| p <= |s| && OccursAt(s, w, p);
      CharsMatch(w, s, p, p + |w|);
    }
  }

  /** Quantified characters: any number, at least one, or at most one of them. */
  lemma {:induction false} RepeatedChar(c: char, s: string, i: nat, k: nat)
    requires i <= k <= |s|
    ensures MatchItem(Repeat(Char(c), Star), s, i, k) <==> forall m :: i <= m < k ==> s[m] == c
    ensures MatchItem(Repeat(Char(c), Plus), s, i, k) <==> i < k && forall m :: i <= m < k ==> s[m] == c
    ensures MatchItem(Repeat(Char(c), Optional), s, i, k) <==> i == k || (k == i + 1 && s[i] == c)
  {
    ManyChars(c, s, i, k);
    if i < k {
      ManyChars(c, s, i + 1, k);
      assert MatchItem(Char(c), s, i, i + 1) <==> s[i] == c;
    }
  }

  lemma {:induction false} ManyChars(c: char, s: string, i: nat, k: nat)
    requires i <= k <= |s|
    ensures MatchMany(Char(c), s, i, k) <==> forall m :: i <= m < k ==> s[m] == c
    decreases k - i
  {
    if i < k {
      ManyChars(c, s, i + 1, k);
      assert MatchItem(Char(c), s, i, i + 1) <==> s[i] == c;
    }
  }

  lemma {:induction false} FirstThenRest(items: seq<Item>, s: string, i: nat, k: nat, j: nat)
    requires items != [] && i <= k <= j <= |s| && MatchItem(items[0], s, i, k) && MatchItems(items[1..], s, k, j)
    ensures MatchItems(items, s, i, j)
  {}

  lemma {:induction false} OneItem(item: Item, s: string, i: nat, j: nat)
    requires i <= j <= |s|
    ensures MatchItems([item], s, i, j) <==> MatchItem(item, s, i, j)
  {
    assert [item][1..] == [];
    if MatchItem(item, s, i, j) {
      FirstThenRest([item], s, i, j, j);
    }
  }

  /** Items one after the other match text one after the other. */
  lemma {:induction false} ItemsInTurn(first: seq<Item>, more: seq<Item>, s: string, i: nat, j: nat)
    requires i <= j <= |s|
    ensures MatchItems(first + more, s, i, j) <==>
            exists k: nat :: i <= k <= j && MatchItems(first, s, i, k) && MatchItems(more, s, k, j)
  {
    if first == [] {
      assert first + more == more;
    } else {
      var rest := first[1..];
      assert (first + more)[1..] == rest + more;
      if MatchItems(first + more, s, i, j) {
        var m: nat :| i <= m <= j && MatchItem(first[0], s, i, m) && MatchItems(rest + more, s, m, j);
        ItemsInTurn(rest, more, s, m, j);
        var k: nat :| m <= k <= j && MatchItems(rest, s, m, k) && MatchItems(more, s, k, j);
        FirstThenRest(first, s, i, m, k);
      }
      if k: nat :| i <= k <= j && MatchItems(first, s, i, k) && MatchItems(more, s, k, j) {
        var m: nat :| i <= m <= k && MatchItem(first[0], s, i, m) && MatchItems(rest, s, m, k);
        ItemsInTurn(rest, more, s, m, j);
        assert m <= k <= j && MatchItems(rest, s, m, k) && MatchItems(more, s, k, j);
        FirstThenRest(first + more, s, i, m, j);
      }
    }
  }

  /** Between the two anchors an ordinary text matches itself only. */
  lemma {:induction false} AnchoredSearch(w: string, s: string)
    ensures SearchFinds([LineStart] + (CharsOf(w) + [LineEnd]), s) <==> s == w
  {
    if SearchFinds([LineStart] + (CharsOf(w) + [LineEnd]), s) {
      var i: nat, j: nat :| i <= j <= |s| && MatchItems([LineStart] + (CharsOf(w) + [LineEnd]), s, i, j);
      AnchoredMatch(w, s, i, j);
    }
    if s == w {
      AnchoredMatch(w, s, 0, |s|);
    }
  }

  lemma {:induction false} AnchoredMatch(w: string, s: string, i: nat, j: nat)
    requires i <= j <= |s|
    ensures MatchItems([LineStart] + (CharsOf(w) + [LineEnd]), s, i, j) <==> i == 0 && j == |s| && s == w
  {
    ItemsInTurn([LineStart], CharsOf(w) + [LineEnd], s, i, j);
    forall k: nat | i <= k <= j
      ensures MatchItems([LineStart], s, i, k) <==> i == k == 0
      ensures MatchItems(CharsOf(w) + [LineEnd], s, k, j) <==> j == |s| && s[k..] == w
    {
      OneItem(LineStart, s, i, k);
      EndMatch(w, s, k, j);
    }
    assert s[0..] == s;
    if i == 0 && j == |s| && s == w {
      assert MatchItems([LineStart], s, i, 0) && MatchItems(CharsOf(w) + [LineEnd], s, 0, j);
    }
  }

  lemma {:induction false} EndMatch(w: string, s: string, k: nat, j: nat)
    requires k <= j <= |s|
    ensures MatchItems(CharsOf(w) + [LineEnd], s, k, j) <==> j == |s| && s[k..] == w
  {
    ItemsInTurn(CharsOf(w), [LineEnd], s, k, j);
    forall m: nat | k <= m <= j
      ensures MatchItems(CharsOf(w), s, k, m) <==> s[k..m] == w
      ensures MatchItems([LineEnd], s, m, j) <==> m == j == |s|
    {
      CharsMatch(w, s, k, m);
      OneItem(LineEnd, s, m, j);
    }
    assert s[k..|s|] == s[k..];
    if j == |s| && s[k..] == w {
      assert MatchItems(CharsOf(w), s, k, j) && MatchItems([LineEnd], s, j, j);
    }
  }

  /** The longest run of required characters; nothing if the analysis gives up. */
  ghost predicate LongestRun(items: seq<Item>, w: string) {
    && ((exists k :: 0 <= k < |items| && StackedChar(items[k])) ==> w == [])
    && (w == [] || exists a: nat :: a < |items| && Spells(items, a, w))
    && ((forall k :: 0 <= k < |items| ==> !StackedChar(items[k])) ==>
          forall a: nat, b: nat :: Window(items, a, b) ==> b - a <= |w|)
  }

  /** The items from position `i` on are those from `n` on. */
  ghost predicate At(pattern: string, items: seq<Item>, i: nat, n: nat) {
    i <= |pattern| && n <= |items| && ParseFrom(pattern, QuantifiersEnd(pattern, i)) == Some(items[n..])
  }

  /** Reading the atom at `i`. */
  lemma {:induction false} ReadAtom(pattern: string, items: seq<Item>, i: nat, n: nat)
    requires At(pattern, items, i, n) && i < |pattern| && !IsQuantifier(pattern[i])
    ensures AtomAt(pattern, i).Some? && n < |items|
    ensures var (item, next) := AtomAt(pattern, i).value;
            items[n] == Quantified(pattern, item, next) && At(pattern, items, next, n + 1)
  {
    var (item, next) := AtomAt(pattern, i).value;
    var rest := items[n..];
    assert rest[0] == Quantified(pattern, item, next);
    assert rest[1..] == items[n + 1..];
  }

  /** The state of the scan at position `i`: the pattern is still simple, and what was read is analysed. */
  ghost predicate Reading(pattern: string, items: seq<Item>, i: nat, n: nat, best: string, run: string) {
    && At(pattern, items, i, n) && Scanned(items, n, best, run)
    && (i < |pattern| && IsQuantifier(pattern[i]) ==> run == [])
  }

  lemma {:induction false} ReadQuantifier(pattern: string, items: seq<Item>, i: nat, n: nat, best: string, run: string)
    requires Reading(pattern, items, i, n, best, run) && i < |pattern| && IsQuantifier(pattern[i])
    ensures Reading(pattern, items, i + 1, n, Longer(run, best), "")
  {}

  lemma {:induction false} ReadWild(pattern: string, items: seq<Item>, i: nat, n: nat, best: string, run: string)
    requires Reading(pattern, items, i, n, best, run) && i < |pattern|
    requires pattern[i] == '.' || pattern[i] == '^' || pattern[i] == '$'
    ensures Reading(pattern, items, i + 1, n + 1, Longer(run, best), "")
  {
    ReadAtom(pattern, items, i, n);
    QuantifiedBase(pattern, AtomAt(pattern, i).value.0, i + 1);
    ReadOther(items, n, best, run);
  }

  /** A literal ending at `next` without a quantifier. */
  lemma {:induction false} ReadLiteral(pattern: string, items: seq<Item>, i: nat, n: nat, best: string, run: string,
                                       c: char, next: nat)
    requires Reading(pattern, items, i, n, best, run) && i < |pattern| && AtomAt(pattern, i) == Some((Char(c), next))
    requires next < |pattern| ==> !IsQuantifier(pattern[next])
    ensures Reading(pattern, items, next, n + 1, best, run + [c])
  {
    ReadAtom(pattern, items, i, n);
    ReadChar(items, n, best, run);
  }

  /** A literal with exactly one quantifier at `next`. */
  lemma {:induction false} ReadRepeated(pattern: string, items: seq<Item>, i: nat, n: nat, best: string, run: string,
                                        c: char, next: nat)
    requires Reading(pattern, items, i, n, best, run) && i < |pattern| && AtomAt(pattern, i) == Some((Char(c), next))
    requires next < |pattern| && IsQuantifier(pattern[next])
    requires var after := QuantifierEnd(pattern, next); after < |pattern| ==> !IsQuantifier(pattern[after])
    ensures pattern[next] == '+' ==> Reading(pattern, items, next, n + 1, Longer(run + [c], best), "")
    ensures pattern[next] != '+' ==> Reading(pattern, items, next, n + 1, Longer(run, best), "")
  {
    ReadAtom(pattern, items, i, n);
    assert items[n] == Repeat(Char(c), QuantifierOf(pattern[next]));
    if pattern[next] == '+' {
      ReadPlus(items, n, best, run);
    } else {
      ReadOther(items, n, best, run);
    }
  }

  /** A pattern that parses has no brace. */
  lemma {:induction false} NoBraceAfter(pattern: string, items: seq<Item>, next: nat, n: nat)
    requires At(pattern, items, next, n) && next < |pattern| && IsQuantifier(pattern[next])
    requires QuantifierEnd(pattern, next) < |pattern|
    ensures pattern[QuantifierEnd(pattern, next)] != '{'
  {
    var after := QuantifierEnd(pattern, next);
    assert QuantifiersEnd(pattern, next) == QuantifiersEnd(pattern, next + 1) == QuantifiersEnd(pattern, after);
    assert !IsQuantifier(pattern[after]) ==> QuantifiersEnd(pattern, next) == after;
  }

  /** A literal with a second quantifier or a brace after the first: giving up is what is promised. */
  lemma {:induction false} ReadStacked(pattern: string, items: seq<Item>, i: nat, n: nat, best: string, run: string,
                                       c: char, next: nat)
    requires Reading(pattern, items, i, n, best, run) && i < |pattern| && AtomAt(pattern, i) == Some((Char(c), next))
    requires next < |pattern| && IsQuantifier(pattern[next])
    requires var after := QuantifierEnd(pattern, next);
             after < |pattern| && (IsQuantifier(pattern[after]) || pattern[after] == '{')
    ensures LongestRun(items, "")
  {
    ReadAtom(pattern, items, i, n);
    var after := QuantifierEnd(pattern, next);
    NoBraceAfter(pattern, items, next, n + 1);
    var once := Repeat(Char(c), QuantifierOf(pattern[next]));
    var twice := Repeat(once, QuantifierOf(pattern[after]));
    assert BaseOf(twice) == BaseOf(once) == Char(c);
    QuantifiedBase(pattern, twice, QuantifierEnd(pattern, after));
    assert StackedChar(items[n]);
  }

  /** The scan at position `i`, for a pattern that parses. */
  ghost predicate ReadTo(pattern: string, i: nat, best: string, run: string) {
    && i <= |pattern| && SimpleFrom(pattern, i) == SimpleFrom(pattern, 0)
    && (ParseFrom(pattern, 0).Some? ==> exists n: nat :: Reading(pattern, ParseFrom(pattern, 0).value, i, n, best, run))
  }

  /** Giving up is what is promised. */
  ghost predicate MayGiveUp(pattern: string) {
    ParseFrom(pattern, 0).Some? ==> LongestRun(ParseFrom(pattern, 0).value, "")
  }

  lemma {:induction false} ReadStart(pattern: string)
    ensures ReadTo(pattern, 0, "", "")
  {
    if ParseFrom(pattern, 0).Some? {
      var items := ParseFrom(pattern, 0).value;
      SimpleParses(pattern, 0);
      assert items[0..] == items;
      assert Reading(pattern, items, 0, 0, "", "");
    }
  }

  lemma {:induction false} ReadUnadorned(pattern: string, i: nat, best: string, run: string)
    requires ReadTo(pattern, i, best, run) && i < |pattern|
    requires pattern[i] == '.' || pattern[i] == '^' || pattern[i] == '$' || IsQuantifier(pattern[i])
    ensures ReadTo(pattern, i + 1, Longer(run, best), "")
  {
    if ParseFrom(pattern, 0).Some? {
      var items := ParseFrom(pattern, 0).value;
      var n: nat :| Reading(pattern, items, i, n, best, run);
      if IsQuantifier(pattern[i]) {
        ReadQuantifier(pattern, items, i, n, best, run);
      } else {
        ReadWild(pattern, items, i, n, best, run);
      }
    }
  }

  lemma {:induction false} NotSimpleHere(pattern: string, i: nat, best: string, run: string)
    requires ReadTo(pattern, i, best, run) && !SimpleFrom(pattern, i)
    ensures MayGiveUp(pattern)
  {
    SimpleParses(pattern, 0);
  }

  /** The literal at `i`, which ends at `next`. */
  ghost predicate LiteralAt(pattern: string, i: nat, c: char, next: nat) {
    i < |pattern| && AtomAt(pattern, i) == Some((Char(c), next)) && SimpleFrom(pattern, next) == SimpleFrom(pattern, i)
  }

  /** What is read of a literal: the new best run, the new open run, or nothing if the analysis gives up. */
  method ReadLiteralAt(pattern: string, i: nat, best: string, run: string, c: char, next: nat)
    returns (r: Option<(string, string)>)
    requires ReadTo(pattern, i, best, run) && LiteralAt(pattern, i, c, next)
    ensures if r.Some? then ReadTo(pattern, next, r.value.0, r.value.1) else MayGiveUp(pattern)
  {
    ghost var parsed := ParseFrom(pattern, 0).Some?;
    ghost var items := if parsed then ParseFrom(pattern, 0).value else [];
    ghost var n: nat := 0;
    if parsed {
      n :| Reading(pattern, items, i, n, best, run);
    }
    if next < |pattern| && IsQuantifier(pattern[next]) {
      var after := QuantifierEnd(pattern, next);
      if after < |pattern| && (IsQuantifier(pattern[after]) || pattern[after] == '{') {
        if parsed {
          ReadStacked(pattern, items, i, n, best, run, c, next);
        }
        return None;
      }
      if parsed {
        ReadRepeated(pattern, items, i, n, best, run, c, next);
      }
      var longest := if pattern[next] == '+' then Longer(run + [c], best) else Longer(run, best);
      r := Some((longest, ""));
    } else {
      if parsed {
        ReadLiteral(pattern, items, i, n, best, run, c, next);
      }
      r := Some((best, run + [c]));
    }
  }

  /**
   The longest run of adjacent characters that every match must contain, or nothing when the
   pattern is not simple.
   */
  method RequiredLiteral(pattern: string) returns (best: string)
    ensures forall s :: Matches(pattern, s) ==> Contains(s, best)
    ensures !SimpleFrom(pattern, 0) ==> best == []
    ensures ParseFrom(pattern, 0).Some? ==> LongestRun(ParseFrom(pattern, 0).value, best)
  {
    var run, i := "", 0;
    best := "";
    ReadStart(pattern);
    EmptyContained(pattern);
    while i < |pattern|
      invariant ReadTo(pattern, i, best, run)
      decreases |pattern| - i
    {
      var c := pattern[i];
      var lit, next := c, i + 1;
      if IsSpecial(c) || (c == '\\' && (i + 1 >= |pattern| || !Escapable(pattern[i + 1]))) {
        NotSimpleHere(pattern, i, best, run);
        return "";
      }
      if c == '.' || c == '^' || c == '$' || IsQuantifier(c) {
        ReadUnadorned(pattern, i, best, run);
        best, run := Longer(run, best), "";
      } else {
        if c == '\\' {
          lit, next := pattern[i + 1], i + 2;
        }
        var read := ReadLiteralAt(pattern, i, best, run, lit, next);
        if read.None? {
          return "";
        }
        best, run := read.value.0, read.value.1;
      }
      i := next;
    }
    Finished(pattern, best, run);
    best := Longer(run, best);
  }

  lemma {:induction false} EmptyContained(pattern: string)
    ensures forall s :: Matches(pattern, s) ==> Contains(s, "")
  {
    forall s | Matches(pattern, s)
      ensures Contains(s, "")
    {
      assert OccursAt(s, "", 0);
    }
  }

  /** At the end of the pattern everything has been read. */
  lemma {:induction false} Finished(pattern: string, best: string, run: string)
    requires ReadTo(pattern, |pattern|, best, run)
    ensures SimpleFrom(pattern, 0)
    ensures ParseFrom(pattern, 0).Some? ==> LongestRun(ParseFrom(pattern, 0).value, Longer(run, best))
    ensures forall s :: Matches(pattern, s) ==> Contains(s, Longer(run, best))
  {
    if ParseFrom(pattern, 0).Some? {
      var items := ParseFrom(pattern, 0).value;
      var n: nat :| Reading(pattern, items, |pattern|, n, best, run);
      assert items[n..] == [];
      EndRun(items, n, best, run);
      LongestIsContained(pattern, items, Longer(run, best));
    }
  }

  lemma {:induction false} LongestIsContained(pattern: string, items: seq<Item>, w: string)
    requires ParseFrom(pattern, 0) == Some(items) && LongestRun(items, w)
    ensures forall s :: Matches(pattern, s) ==> Contains(s, w)
  {
    if w == [] {
      EmptyContained(pattern);
    } else {
      var a: nat :| a < |items| && Spells(items, a, w);
      forall s | Matches(pattern, s)
        ensures Contains(s, w)
      {
        var p: nat, q: nat :| p <= q <= |s| && MatchItems(items, s, p, q);
        RunIsContained(items, a, w, s, p, q);
      }
    }
  }

  // ---------------------------------------------------------------------------
  // The scan
  // ---------------------------------------------------------------------------

  /** The names accepted by a test, at most `limit` of them. */
  function FindJob(names: seq<string>, accept: string -> bool, limit: nat): Job<string> {
    Job(|names|, limit, NameLess, (i: nat) => if i < |names| && accept(names[i]) then Some(names[i]) else None)
  }

  ghost function ByRegex(pattern: string): string -> bool {
    (name: string) => Matches(pattern, name)
  }

  /** What a worker tests: the literal first, then the regular expression. */
  ghost function Prefiltered(pattern: string, literal: string): string -> bool {
    (name: string) => (literal == "" || Contains(name, literal)) && Matches(pattern, name)
  }

  lemma {:induction false} EmittedSame<T>(e: nat -> Option<T>, f: nat -> Option<T>, n: nat)
    requires forall i: nat :: i < n ==> e(i) == f(i)
    ensures Emitted(e, n) == Emitted(f, n)
  {
    if n > 0 {
      EmittedSame(e, f, n - 1);
    }
  }

  /**
   The parallel prefiltered find returns the first `limit` of all sorted regex matches, for any
   number of workers and any interleaving, given a literal every match contains; it throws exactly
   if matching a name does.
   */
  lemma {:induction false} FindIsRegexSearch(pattern: string, literal: string, names: seq<string>, limit: nat,
                                             run: seq<Pool<string>>, turns: seq<nat>, merged: seq<string>)
    requires forall s :: Matches(pattern, s) ==> Contains(s, literal)
    requires var job := FindJob(names, Prefiltered(pattern, literal), limit);
             && Run(job, run, turns) && Joined(run[|turns|])
             && multiset(merged) == KeptSum(run[|turns|].workers)
    ensures var job := FindJob(names, Prefiltered(pattern, literal), limit);
            Outcome(job, run[|turns|], merged)
            == match FirstThrow(job, run, turns, |turns|)
               case Some(thrown) => Err(thrown)
               case None => Ok(TopSpec(FindJob(names, ByRegex(pattern), limit)))
  {
    var job, plain := FindJob(names, Prefiltered(pattern, literal), limit), FindJob(names, ByRegex(pattern), limit);
    NameStrictTotal();
    ParallelTopK(job, run, turns, merged);
    EmittedSame(job.emit, plain.emit, |names|);
  }
}
