/** user/grep.c: the matcher against the meaning of its patterns. A C string is the
    sequence of its characters before the NUL; a pointer into it is the rest of it. */
module Grep {

  // ---------- patterns and what they mean ----------

  datatype Item = One(c: char) | Star(c: char)

  /** An item list, and whether a final $ ties it to the end of the text. */
  datatype Pattern = Pattern(items: seq<Item>, atEnd: bool)

  /** The pattern a regular expression is written for, without a leading ^. A * is special
      only behind another character, a $ only at the very end. */
  function Parse(re: string): (p: Pattern) {
    if re == "" then Pattern([], false)
    else if |re| >= 2 && re[1] == '*' then var p := Parse(re[2..]); Pattern([Star(re[0])] + p.items, p.atEnd)
    else if re == "$" then Pattern([], true)
    else var p := Parse(re[1..]); Pattern([One(re[0])] + p.items, p.atEnd)
  }

  /** A pattern written down again. */
  function Written(items: seq<Item>, atEnd: bool): string {
    if items == [] then (if atEnd then "$" else "")
    else [items[0].c] + (if items[0].Star? then "*" else "") + Written(items[1..], atEnd)
  }

  /** No item is written so that it would be read as something else: a * does not follow a
      plain character, and a plain $ is not the last character. */
  predicate Legible(items: seq<Item>, atEnd: bool) {
    && (forall i :: 0 < i < |items| && items[i - 1].One? ==> items[i].c != '*')
    && (items != [] && !atEnd ==> items[|items| - 1] != One('$'))
  }

  lemma {:induction false} FirstWritten(items: seq<Item>, atEnd: bool)
    ensures Written(items, atEnd) == "" <==> items == [] && !atEnd
    ensures items != [] ==> Written(items, atEnd)[0] == items[0].c
    ensures items == [] && atEnd ==> Written(items, atEnd) == "$"
  {
  }

  /** Parsing a pattern that is written legibly gives it back. */
  lemma {:induction false} ParseInvertsWritten(items: seq<Item>, atEnd: bool)
    requires Legible(items, atEnd)
    ensures Parse(Written(items, atEnd)) == Pattern(items, atEnd)
    decreases |items|
  {
    if items != [] {
      LegibleTail(items, atEnd);
      ParseInvertsWritten(items[1..], atEnd);
      FirstParsed(items[0], items[1..], atEnd, Written(items[1..], atEnd));
      assert items == [items[0]] + items[1..];
    }
  }

  lemma LegibleTail(items: seq<Item>, atEnd: bool)
    requires Legible(items, atEnd) && items != []
    ensures var rest, w := items[1..], Written(items[1..], atEnd);
      && Legible(rest, atEnd)
      && (items[0].One? && w != "" ==> w[0] != '*')
      && (items[0] == One('$') ==> w != "")
  {
    var rest := items[1..];
    assert rest != [] ==> rest[|rest| - 1] == items[|items| - 1] && rest[0] == items[1];
    assert forall i :: 0 < i < |rest| ==> rest[i] == items[i + 1] && rest[i - 1] == items[i];
    FirstWritten(rest, atEnd);
  }

  lemma FirstParsed(item: Item, items: seq<Item>, atEnd: bool, w: string)
    requires Parse(w) == Pattern(items, atEnd) && (item == One('$') ==> w != "")
    requires item.One? && w != "" ==> w[0] != '*'
    ensures Parse([item.c] + (if item.Star? then "*" else "") + w) == Pattern([item] + items, atEnd)
  {
    var re := [item.c] + (if item.Star? then "*" else "") + w;
    if item.Star? {
      assert re[2..] == w;
    } else {
      assert re[1..] == w;
    }
  }

  /** A first item and a legible rest are legible, unless the two would be read together. */
  lemma LegibleAdd(item: Item, items: seq<Item>, atEnd: bool)
    requires Legible(items, atEnd)
    requires item.One? && items != [] ==> items[0].c != '*'
    requires items == [] && !atEnd ==> item != One('$')
    ensures Legible([item] + items, atEnd)
  {
    var all := [item] + items;
    forall i | 0 < i < |all| && all[i - 1].One? ensures all[i].c != '*' {
      assert all[i] == items[i - 1];
    }
  }

  /** And every expression is the writing of its pattern. */
  lemma {:induction false} WrittenInvertsParse(re: string)
    ensures var p := Parse(re); Written(p.items, p.atEnd) == re && Legible(p.items, p.atEnd)
    decreases |re|
  {
    hide Legible;
    if re == "" || re == "$" {
      ShortLegible(Parse(re).atEnd);
    } else if |re| >= 2 && re[1] == '*' {
      WrittenInvertsParse(re[2..]);
      StarRead(re, Parse(re[2..]));
    } else {
      WrittenInvertsParse(re[1..]);
      OneRead(re, Parse(re[1..]));
    }
  }

  lemma StarRead(re: string, q: Pattern)
    requires |re| >= 2 && re[1] == '*' && Written(q.items, q.atEnd) == re[2..] && Legible(q.items, q.atEnd)
    ensures Written([Star(re[0])] + q.items, q.atEnd) == re && Legible([Star(re[0])] + q.items, q.atEnd)
  {
    LegibleAdd(Star(re[0]), q.items, q.atEnd);
    assert ([Star(re[0])] + q.items)[1..] == q.items;
    hide Legible;
    assert re == [re[0]] + "*" + re[2..];
  }

  lemma OneRead(re: string, q: Pattern)
    requires re != "" && re != "$" && !(|re| >= 2 && re[1] == '*')
    requires Written(q.items, q.atEnd) == re[1..] && Legible(q.items, q.atEnd)
    ensures Written([One(re[0])] + q.items, q.atEnd) == re && Legible([One(re[0])] + q.items, q.atEnd)
  {
    FirstWritten(q.items, q.atEnd);
    LegibleAdd(One(re[0]), q.items, q.atEnd);
    assert ([One(re[0])] + q.items)[1..] == q.items;
    hide Legible;
    assert re == [re[0]] + re[1..];
  }

  lemma ShortLegible(atEnd: bool)
    ensures Legible([], atEnd)
  {
  }

  predicate Fits(c: char, x: char) {
    c == '.' || c == x
  }

  predicate AllFit(c: char, w: string) {
    forall i :: 0 <= i < |w| ==> Fits(c, w[i])
  }

  /** The words of one item, and of a list of items: concatenations of theirs. */
  predicate ItemMatches(item: Item, w: string) {
    match item
    case One(c) => |w| == 1 && Fits(c, w[0])
    case Star(c) => AllFit(c, w)
  }

  ghost predicate Denotes(items: seq<Item>, w: string) {
    if items == [] then w == ""
    else exists k: nat :: k <= |w| && ItemMatches(items[0], w[..k]) && Denotes(items[1..], w[k..])
  }

  /** Some prefix of the text is a word of the pattern; all of it if tied to the end. */
  ghost predicate MatchesAt(p: Pattern, text: string) {
    exists j: nat :: j <= |text| && (p.atEnd ==> j == |text|) && Denotes(p.items, text[..j])
  }

  /** The meaning of a whole regular expression. */
  ghost predicate Matches(re: string, text: string) {
    if re != "" && re[0] == '^' then MatchesAt(Parse(re[1..]), text)
    else exists i: nat :: i <= |text| && MatchesAt(Parse(re), text[i..])
  }

  /** What . and a leading ^ stand for; every other character stands for itself. */
  lemma Specials(re: string, text: string, c: char, w: string)
    ensures Matches("^" + re, text) <==> MatchesAt(Parse(re), text)
    ensures re == "" || re[0] != '^' ==>
      (Matches(re, text) <==> exists i: nat :: i <= |text| && MatchesAt(Parse(re), text[i..]))
    ensures ItemMatches(One('.'), w) <==> |w| == 1
    ensures c != '.' ==> (ItemMatches(One(c), w) <==> w == [c])
  {
    assert ("^" + re)[1..] == re;
  }

  // ---------- how a match starts ----------

  /** Taking the first item off: its word is a prefix of the text, the rest matches behind. */
  lemma {:induction false} FirstItem(item: Item, p: Pattern, text: string)
    ensures MatchesAt(Pattern([item] + p.items, p.atEnd), text)
      <==> exists k: nat :: k <= |text| && ItemMatches(item, text[..k]) && MatchesAt(p, text[k..])
  {
    hide ItemMatches, Denotes;
    var all := Pattern([item] + p.items, p.atEnd);
    if MatchesAt(all, text) {
      var j: nat :| j <= |text| && (p.atEnd ==> j == |text|) && Denotes(all.items, text[..j]);
      var k := CutOff(item, p.items, text[..j]);
      assert text[..j][..k] == text[..k] && text[..j][k..] == text[k..][..j - k];
      assert MatchesAt(p, text[k..]);
    }
    if k: nat :| k <= |text| && ItemMatches(item, text[..k]) && MatchesAt(p, text[k..]) {
      var j: nat :| j <= |text[k..]| && (p.atEnd ==> j == |text[k..]|) && Denotes(p.items, text[k..][..j]);
      var w := text[..k + j];
      assert w[..k] == text[..k] && w[k..] == text[k..][..j];
      PutOn(item, p.items, w, k);
    }
  }

  lemma CutOff(item: Item, items: seq<Item>, w: string) returns (k: nat)
    requires Denotes([item] + items, w)
    ensures k <= |w| && ItemMatches(item, w[..k]) && Denotes(items, w[k..])
  {
    assert ([item] + items)[1..] == items;
    k :| k <= |w| && ItemMatches(item, w[..k]) && Denotes(items, w[k..]);
  }

  lemma PutOn(item: Item, items: seq<Item>, w: string, k: nat)
    requires k <= |w| && ItemMatches(item, w[..k]) && Denotes(items, w[k..])
    ensures Denotes([item] + items, w)
  {
    assert ([item] + items)[1..] == items;
  }

  lemma {:induction false} FirstOne(c: char, p: Pattern, text: string)
    ensures MatchesAt(Pattern([One(c)] + p.items, p.atEnd), text)
      <==> text != "" && Fits(c, text[0]) && MatchesAt(p, text[1..])
  {
    FirstItem(One(c), p, text);
    if text != "" && Fits(c, text[0]) && MatchesAt(p, text[1..]) {
      assert ItemMatches(One(c), text[..1]);
    }
  }

  lemma {:induction false} FirstStar(c: char, p: Pattern, text: string)
    ensures MatchesAt(Pattern([Star(c)] + p.items, p.atEnd), text)
      <==> exists k: nat :: k <= |text| && AllFit(c, text[..k]) && MatchesAt(p, text[k..])
  {
    FirstItem(Star(c), p, text);
    if k: nat :| k <= |text| && AllFit(c, text[..k]) && MatchesAt(p, text[k..]) {
      assert ItemMatches(Star(c), text[..k]);
    }
    if k: nat :| k <= |text| && ItemMatches(Star(c), text[..k]) && MatchesAt(p, text[k..]) {
      assert AllFit(c, text[..k]);
    }
  }

  lemma NoItems(atEnd: bool, text: string)
    ensures MatchesAt(Pattern([], atEnd), text) <==> !atEnd || text == ""
  {
    if !atEnd || text == "" {
      assert Denotes([], text[..0]);
    }
  }

  // ---------- the matcher ----------

  /** match(): whether some part of the text is a word of the expression. */
  method Match(re: string, text: string) returns (r: bool)
    ensures r <==> Matches(re, text)
  {
    if re != "" && re[0] == '^' {
      r := MatchHere(re[1..], text);
      return;
    }
    var i: nat := 0;
    while true
      invariant i <= |text| && forall h: nat :: h < i ==> !MatchesAt(Parse(re), text[h..])
      decreases |text| - i
    {
      r := MatchHere(re, text[i..]);
      if r {
        return;
      }
      if i == |text| {
        break;
      }
      i := i + 1;
    }
    r := false;
  }

  /** matchhere() */
  method MatchHere(re: string, text: string) returns (r: bool)
    ensures r <==> MatchesAt(Parse(re), text)
    decreases 2 * |re|
  {
    if re == "" {
      NoItems(false, text);
      return true;
    }
    if |re| >= 2 && re[1] == '*' {
      FirstStar(re[0], Parse(re[2..]), text);
      r := MatchStar(re[0], re[2..], text);
      return;
    }
    if re == "$" {
      NoItems(true, text);
      return text == "";
    }
    FirstOne(re[0], Parse(re[1..]), text);
    if text != "" && (re[0] == '.' || re[0] == text[0]) {
      r := MatchHere(re[1..], text[1..]);
      return;
    }
    return false;
  }

  /** matchstar(): some run of characters fitting c, then the rest of the expression. */
  method MatchStar(c: char, re: string, text: string) returns (r: bool)
    ensures r <==> exists k: nat :: k <= |text| && AllFit(c, text[..k]) && MatchesAt(Parse(re), text[k..])
    decreases 2 * |re| + 1
  {
    var i: nat := 0;
    while true
      invariant i <= |text| && AllFit(c, text[..i])
      invariant forall h: nat :: h < i ==> !MatchesAt(Parse(re), text[h..])
      decreases |text| - i
    {
      r := MatchHere(re, text[i..]);
      if r {
        return;
      }
      if i == |text| || !(text[i] == c || c == '.') {
        break;
      }
      i := i + 1;
    }
    r := false;
    forall k: nat | k <= |text| ensures AllFit(c, text[..k]) ==> !MatchesAt(Parse(re), text[k..]) {
      assert k > i ==> text[..k][i] == text[i];
    }
  }
}
