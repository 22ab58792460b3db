/** Texts made of pieces with a separator between them. */
module Fields {
  import opened Decimal

  /** The pieces between the separators. */
  function Split(text: string, c: char): (pieces: seq<string>)
    ensures pieces != []
    ensures forall i :: 0 <= i < |pieces| ==> Lacks(pieces[i], c)
    decreases |text|
  {
    var k := Find(text, c);
    if k == |text| then
      assert text[..k] == text;
      [text]
    else [text[..k]] + Split(text[k + 1..], c)
  }

  function Join(pieces: seq<string>, c: char): string
    requires pieces != []
  {
    if |pieces| == 1 then pieces[0] else pieces[0] + [c] + Join(pieces[1..], c)
  }

  lemma {:induction false} SplitJoin(pieces: seq<string>, c: char)
    requires pieces != [] && forall i :: 0 <= i < |pieces| ==> Lacks(pieces[i], c)
    ensures Split(Join(pieces, c), c) == pieces
  {
    if |pieces| == 1 {
      FindNone(pieces[0], c);
    } else {
      var rest := Join(pieces[1..], c);
      var text := pieces[0] + [c] + rest;
      SplitJoin(pieces[1..], c);
      FindSplits(pieces[0], c, rest);
      assert text[..|pieces[0]|] == pieces[0] && text[|pieces[0]| + 1..] == rest;
    }
  }

  lemma {:induction false} JoinSplit(text: string, c: char)
    ensures Join(Split(text, c), c) == text
    decreases |text|
  {
    var k := Find(text, c);
    if k < |text| {
      JoinSplit(text[k + 1..], c);
      JoinCons(text[..k], Split(text[k + 1..], c), c);
      assert text == text[..k] + [c] + text[k + 1..];
    }
  }

  lemma {:induction false} JoinCons(first: string, rest: seq<string>, c: char)
    requires rest != []
    ensures Join([first] + rest, c) == first + [c] + Join(rest, c)
  {
    assert ([first] + rest)[1..] == rest;
  }

  lemma {:induction false} JoinAppend(pieces: seq<string>, last: string, c: char)
    requires pieces != []
    ensures Join(pieces + [last], c) == Join(pieces, c) + [c] + last
  {
    if |pieces| > 1 {
      JoinAppend(pieces[1..], last, c);
      assert (pieces + [last])[1..] == pieces[1..] + [last];
    } else {
      assert (pieces + [last])[1..] == [last];
    }
  }

  lemma {:induction false} JoinLacks(pieces: seq<string>, c: char, d: char)
    requires pieces != [] && c != d && forall i :: 0 <= i < |pieces| ==> Lacks(pieces[i], d)
    ensures Lacks(Join(pieces, c), d)
  {
    if |pieces| > 1 {
      JoinLacks(pieces[1..], c, d);
    }
  }

  lemma {:induction false} JoinLength(pieces: seq<string>, c: char)
    requires pieces != [] && pieces[0] != ""
    ensures Join(pieces, c) != ""
  {}

  /** The first i pieces joined. */
  function JoinFirst(pieces: seq<string>, i: nat, c: char): string
    requires i <= |pieces|
  {
    if i == 0 then "" else Join(pieces[..i], c)
  }

  lemma {:induction false} JoinNext(pieces: seq<string>, i: nat, c: char)
    requires i < |pieces|
    ensures JoinFirst(pieces, i + 1, c) == JoinFirst(pieces, i, c) + (if i > 0 then [c] else []) + pieces[i]
  {
    assert pieces[..i + 1] == pieces[..i] + [pieces[i]];
    if i > 0 {
      JoinAppend(pieces[..i], pieces[i], c);
    }
  }

  lemma {:induction false} JoinAll(pieces: seq<string>, c: char)
    requires pieces != []
    ensures JoinFirst(pieces, |pieces|, c) == Join(pieces, c)
  {
    assert pieces[..|pieces|] == pieces;
  }
}
