/**
 * `expand_abbreviations`: one whole-word, case-insensitive substitution
 * pass per lexicon key, keys taken longest first, each pass working on the
 * output of the previous one.
 */
module Expander {
  import opened Wrappers
  import opened Chars
  import opened Patterns
  import opened Rewriting

  /** A lexicon: keys with their expansions, in the dictionary's insertion order. */
  type Table = seq<(Key, string)>

  /** The entries whose key has length `n`, in table order. */
  function WithKeyLength(t: Table, n: nat): Table
  {
    if t == [] then []
    else (if |t[0].0| == n then [t[0]] else []) + WithKeyLength(t[1..], n)
  }

  /** No key is longer than the key before it. */
  predicate LongestFirst(t: Table)
  {
    forall i :: 0 < i < |t| ==> |t[i - 1].0| >= |t[i].0|
  }

  lemma {:induction false} LongestFirstOrdered(t: Table, i: nat, j: nat)
    requires LongestFirst(t) && i <= j < |t|
    ensures |t[i].0| >= |t[j].0|
    decreases j - i
  {
    if i < j {
      LongestFirstOrdered(t, i + 1, j);
    }
  }

  lemma WithKeyLengthCons(x: (Key, string), t: Table, n: nat)
    ensures WithKeyLength([x] + t, n) == (if |x.0| == n then [x] else []) + WithKeyLength(t, n)
  {
    assert ([x] + t)[1..] == t;
  }

  /** `x` goes before the first entry whose key is no longer than its own. */
  function InsertByLength(x: (Key, string), t: Table): (r: Table)
    requires LongestFirst(t)
    ensures |r| == |t| + 1
    ensures LongestFirst(r)
    ensures r[0] == x || (t != [] && r[0] == t[0])
  {
    if t == [] || |t[0].0| <= |x.0| then [x] + t
    else
      assert t == [t[0]] + t[1..];
      var rest := InsertByLength(x, t[1..]);
      var r := [t[0]] + rest;
      assert LongestFirst(r) by {
        forall i | 0 < i < |r| ensures |r[i - 1].0| >= |r[i].0| {
          if i > 1 { assert r[i - 1] == rest[i - 2] && r[i] == rest[i - 1]; }
        }
      }
      r
  }

  lemma LongestFirstTail(t: Table)
    requires LongestFirst(t) && t != []
    ensures LongestFirst(t[1..])
  {
    forall i | 0 < i < |t| - 1 ensures |t[1..][i - 1].0| >= |t[1..][i].0| {
      assert t[1..][i - 1] == t[i] && t[1..][i] == t[i + 1];
    }
  }

  /** Insertion keeps each length class in order, with `x` first in its own class. */
  lemma {:induction false} InsertKeepsLengthClasses(x: (Key, string), t: Table, n: nat)
    requires LongestFirst(t)
    ensures WithKeyLength(InsertByLength(x, t), n) == (if |x.0| == n then [x] else []) + WithKeyLength(t, n)
  {
    var xClass := if |x.0| == n then [x] else [];
    if t == [] || |t[0].0| <= |x.0| {
      WithKeyLengthCons(x, t, n);
    } else {
      LongestFirstTail(t);
      var rest := InsertByLength(x, t[1..]);
      var headClass := if |t[0].0| == n then [t[0]] else [];
      assert InsertByLength(x, t) == [t[0]] + rest;
      InsertKeepsLengthClasses(x, t[1..], n);
      assert WithKeyLength(rest, n) == xClass + WithKeyLength(t[1..], n);
      WithKeyLengthCons(t[0], rest, n);
      assert WithKeyLength([t[0]] + rest, n) == headClass + WithKeyLength(rest, n);
      assert t == [t[0]] + t[1..];
      WithKeyLengthCons(t[0], t[1..], n);
      assert WithKeyLength(t, n) == headClass + WithKeyLength(t[1..], n);
      assert headClass == [] || xClass == [];
      assert headClass + (xClass + WithKeyLength(t[1..], n)) == xClass + (headClass + WithKeyLength(t[1..], n));
    }
  }

  /**
   * `sorted(keys, key=lambda k: -len(k))`: the entries by non-increasing key
   * length; among keys of one length, table order is kept (Python's sort is stable).
   */
  function SortByLength(t: Table): (r: Table)
    ensures LongestFirst(r)
    ensures forall n :: WithKeyLength(r, n) == WithKeyLength(t, n)
  {
    if t == [] then []
    else
      assert t == [t[0]] + t[1..];
      var rest := SortByLength(t[1..]);
      var r := InsertByLength(t[0], rest);
      assert forall n :: WithKeyLength(r, n) == WithKeyLength(t, n) by {
        forall n ensures WithKeyLength(r, n) == WithKeyLength(t, n) {
          InsertKeepsLengthClasses(t[0], rest, n);
          WithKeyLengthCons(t[0], t[1..], n);
        }
      }
      r
  }

  /** One whole-word pass per entry, in the order given. */
  function ApplyInOrder(t: Table, s: string): string
  {
    if t == [] then s else ApplyInOrder(t[1..], Rewrite(WholeWord(t[0].0, t[0].1), s))
  }

  /** What `expand_abbreviations` returns. */
  function Expand(table: Table, s: string): string
  {
    ApplyInOrder(SortByLength(table), s)
  }

  /** `expand_abbreviations`: `text` is reassigned by one pass per key, longest key first. */
  method ExpandAbbreviations(table: Table, text: string) returns (r: string)
    ensures r == Expand(table, text)
  {
    var keysSorted := SortByLength(table);
    r := text;
    for i := 0 to |keysSorted|
      invariant ApplyInOrder(keysSorted[i..], r) == Expand(table, text)
    {
      assert keysSorted[i..][1..] == keysSorted[i + 1..];
      r := RewriteScan(WholeWord(keysSorted[i].0, keysSorted[i].1), r);
    }
  }

  lemma {:induction false} InsertAddsEntry(x: (Key, string), t: Table)
    requires LongestFirst(t)
    ensures multiset(InsertByLength(x, t)) == multiset(t) + multiset{x}
  {
    if t != [] && |t[0].0| > |x.0| {
      LongestFirstTail(t);
      InsertAddsEntry(x, t[1..]);
      assert t == [t[0]] + t[1..];
      assert InsertByLength(x, t) == [t[0]] + InsertByLength(x, t[1..]);
    }
  }

  /** The sorted key list is a permutation of the table. */
  lemma {:induction false} SortPermutes(t: Table)
    ensures multiset(SortByLength(t)) == multiset(t)
  {
    if t != [] {
      SortPermutes(t[1..]);
      InsertAddsEntry(t[0], SortByLength(t[1..]));
      assert t == [t[0]] + t[1..];
    }
  }

  /** A pass for a key that occurs nowhere as a whole word leaves the text unchanged. */
  lemma WordPassUnchanged(key: Key, value: string, s: string)
    requires !OccursAsWord(key, s)
    ensures Rewrite(WholeWord(key, value), s) == s
  {
    forall j | 0 <= j < |s| ensures Match(WholeWord(key, value), s, j).None? { }
    RewriteWithoutMatch(WholeWord(key, value), s);
  }

  lemma {:induction false} ApplyInOrderUnchanged(t: Table, s: string)
    requires forall e :: e in t ==> !OccursAsWord(e.0, s)
    ensures ApplyInOrder(t, s) == s
  {
    if t != [] {
      WordPassUnchanged(t[0].0, t[0].1, s);
      assert forall e :: e in t[1..] ==> e in t;
      ApplyInOrderUnchanged(t[1..], s);
    }
  }

  /** Text in which no key of the table occurs as a whole word is returned unchanged. */
  lemma ExpandUnchanged(table: Table, s: string)
    requires forall e :: e in table ==> !OccursAsWord(e.0, s)
    ensures Expand(table, s) == s
  {
    SortPermutes(table);
    assert forall e :: e in SortByLength(table) ==> e in multiset(table);
    ApplyInOrderUnchanged(SortByLength(table), s);
  }

  lemma {:induction false} ApplyLongestFirst(t: Table, key: Key, value: string, s: string)
    requires LongestFirst(t) && (key, value) in t
    requires forall e :: e in t && e.0 == key ==> e.1 == value
    requires forall e :: e in t && e.0 != key && |e.0| >= |key| ==> !OccursAsWord(e.0, s)
    requires forall e :: e in t ==> !OccursAsWord(e.0, Rewrite(WholeWord(key, value), s))
    ensures ApplyInOrder(t, s) == Rewrite(WholeWord(key, value), s)
  {
    assert forall e :: e in t[1..] ==> e in t;
    if t[0].0 == key {
      ApplyInOrderUnchanged(t[1..], Rewrite(WholeWord(key, value), s));
    } else {
      var j :| 0 <= j < |t| && t[j] == (key, value);
      LongestFirstOrdered(t, 0, j);
      WordPassUnchanged(t[0].0, t[0].1, s);
      LongestFirstTail(t);
      assert t[1..][j - 1] == (key, value);
      ApplyLongestFirst(t[1..], key, value, s);
    }
  }

  /**
   * Longer keys win: when no other key at least as long as `key` occurs in
   * the text, and no key occurs in the text after `key`'s pass, expansion is
   * exactly the pass for `key`, whatever shorter keys would have matched inside it.
   */
  lemma ExpandLongestFirst(table: Table, key: Key, value: string, s: string)
    requires (key, value) in table
    requires forall e :: e in table && e.0 == key ==> e.1 == value
    requires forall e :: e in table && e.0 != key && |e.0| >= |key| ==> !OccursAsWord(e.0, s)
    requires forall e :: e in table ==> !OccursAsWord(e.0, Rewrite(WholeWord(key, value), s))
    ensures Expand(table, s) == Rewrite(WholeWord(key, value), s)
  {
    var sorted := SortByLength(table);
    SortPermutes(table);
    assert forall e :: e in sorted <==> e in multiset(table);
    ApplyLongestFirst(sorted, key, value, s);
  }

  /** The end of the maximal run of word characters starting at `i`. */
  function WordEnd(s: string, i: nat): (e: nat)
    requires i <= |s|
    ensures i <= e <= |s|
    ensures forall j :: i <= j < e ==> IsWordChar(s[j])
    ensures e == |s| || !IsWordChar(s[e])
    decreases |s| - i
  {
    if i < |s| && IsWordChar(s[i]) then WordEnd(s, i + 1) else i
  }

  /**
   * A reference definition of one pass: the text is read as maximal words
   * and the characters between them; each word equal to `key` ignoring case
   * becomes `value`, and everything else is copied.
   */
  function ReplaceWordsFrom(key: string, value: string, s: string, i: nat): string
    requires i <= |s|
    decreases |s| - i
  {
    if i == |s| then []
    else if !IsWordChar(s[i]) then [s[i]] + ReplaceWordsFrom(key, value, s, i + 1)
    else
      var e := WordEnd(s, i);
      (if SameIgnoringCase(s[i..e], key) then value else s[i..e]) + ReplaceWordsFrom(key, value, s, e)
  }

  function ReplaceWords(key: string, value: string, s: string): string
  {
    ReplaceWordsFrom(key, value, s, 0)
  }

  predicate AllWordChars(key: string)
  {
    forall j :: 0 <= j < |key| ==> IsWordChar(key[j])
  }

  /** Inside a word there is no boundary, so no match starts there. */
  lemma NoMatchInsideWord(key: Key, value: string, s: string, i: nat, j: nat)
    requires i <= |s| && i < j < WordEnd(s, i)
    ensures Match(WholeWord(key, value), s, j).None?
  {
    assert WordAt(s, j - 1) && WordAt(s, j);
  }

  /** A key of word characters that matches spans only word characters. */
  lemma MatchSpansWordChars(key: Key, s: string, i: nat, j: nat)
    requires AllWordChars(key) && MatchesWordAt(key, s, i) && i <= j < i + |key|
    ensures IsWordChar(s[j])
  {
    assert LowerChar(s[i..i + |key|][j - i]) == LowerChar(key[j - i]);
  }

  /** A match of a key of word characters at a word start covers exactly that word. */
  lemma MatchIsWholeWord(key: Key, s: string, i: nat)
    requires AllWordChars(key) && MatchesWordAt(key, s, i)
    ensures WordEnd(s, i) == i + |key|
  {
    var e := WordEnd(s, i);
    if e < i + |key| {
      MatchSpansWordChars(key, s, i, e);
    }
  }

  /** At the start of a word, a key of word characters matches exactly when it is the whole word. */
  lemma MatchAtWordStart(key: Key, value: string, s: string, i: nat)
    requires AllWordChars(key) && i < |s| && IsWordChar(s[i]) && !WordAt(s, i - 1)
    ensures MatchesWordAt(key, s, i) <==> SameIgnoringCase(s[i..WordEnd(s, i)], key)
  {
    var e := WordEnd(s, i);
    if MatchesWordAt(key, s, i) {
      MatchIsWholeWord(key, s, i);
    }
    if SameIgnoringCase(s[i..e], key) {
      assert WordAt(s, e - 1) && !WordAt(s, e);
    }
  }

  /** A non-word character never starts a match of a key of word characters. */
  lemma NoMatchAtNonWord(key: Key, value: string, s: string, i: nat)
    requires AllWordChars(key) && i < |s| && !IsWordChar(s[i])
    ensures Match(WholeWord(key, value), s, i).None?
  {
    assert IsWordChar(LowerChar(key[0])) && !IsWordChar(LowerChar(s[i]));
    if i + |key| <= |s| {
      assert s[i..i + |key|][0] == s[i];
    }
  }

  lemma StepAtNonWord(key: Key, value: string, s: string, i: nat)
    requires AllWordChars(key) && i < |s| && !IsWordChar(s[i])
    ensures RewriteFrom(WholeWord(key, value), s, i) == [s[i]] + RewriteFrom(WholeWord(key, value), s, i + 1)
    ensures ReplaceWordsFrom(key, value, s, i) == [s[i]] + ReplaceWordsFrom(key, value, s, i + 1)
  {
    NoMatchAtNonWord(key, value, s, i);
  }

  /** A word equal to the key is replaced in one step. */
  lemma StepAtMatchingWord(key: Key, value: string, s: string, i: nat)
    requires AllWordChars(key) && i < |s| && IsWordChar(s[i]) && !WordAt(s, i - 1)
    requires SameIgnoringCase(s[i..WordEnd(s, i)], key)
    ensures RewriteFrom(WholeWord(key, value), s, i) == value + RewriteFrom(WholeWord(key, value), s, WordEnd(s, i))
  {
    var rule := WholeWord(key, value);
    MatchAtWordStart(key, value, s, i);
    assert MatchesWordAt(key, s, i);
    MatchIsWholeWord(key, s, i);
    assert Match(rule, s, i) == Some(Hit(WordEnd(s, i), value));
    RewriteFromAtMatch(rule, s, i);
  }

  /** A word other than the key is copied character by character. */
  lemma StepAtOtherWord(key: Key, value: string, s: string, i: nat)
    requires AllWordChars(key) && i < |s| && IsWordChar(s[i]) && !WordAt(s, i - 1)
    requires !SameIgnoringCase(s[i..WordEnd(s, i)], key)
    ensures RewriteFrom(WholeWord(key, value), s, i) == s[i..WordEnd(s, i)] + RewriteFrom(WholeWord(key, value), s, WordEnd(s, i))
  {
    var rule := WholeWord(key, value);
    var e := WordEnd(s, i);
    MatchAtWordStart(key, value, s, i);
    forall j | i <= j < e ensures Match(rule, s, j).None? {
      if j > i {
        NoMatchInsideWord(key, value, s, i, j);
      }
    }
    RewriteFromUpTo(rule, s, i, e);
  }

  lemma {:induction false} WordwiseFrom(key: Key, value: string, s: string, i: nat)
    requires AllWordChars(key) && i <= |s| && !(WordAt(s, i - 1) && WordAt(s, i))
    ensures RewriteFrom(WholeWord(key, value), s, i) == ReplaceWordsFrom(key, value, s, i)
    decreases |s| - i
  {
    if i < |s| {
      if !IsWordChar(s[i]) {
        StepAtNonWord(key, value, s, i);
        WordwiseFrom(key, value, s, i + 1);
      } else {
        if SameIgnoringCase(s[i..WordEnd(s, i)], key) {
          StepAtMatchingWord(key, value, s, i);
        } else {
          StepAtOtherWord(key, value, s, i);
        }
        WordwiseFrom(key, value, s, WordEnd(s, i));
      }
    }
  }

  /**
   * For a key made of word characters, the regular-expression pass replaces
   * exactly the whole words equal to the key ignoring case: it agrees with
   * the word-by-word reference definition on every text.
   */
  lemma WholeWordPassIsWordwise(key: Key, value: string, s: string)
    requires AllWordChars(key)
    ensures Rewrite(WholeWord(key, value), s) == ReplaceWords(key, value, s)
  {
    WordwiseFrom(key, value, s, 0);
  }

  /**
   * A text that is exactly the key, up to case, becomes the key's value
   * when the key begins and ends with a word character.
   */
  lemma WordPassWholeText(key: Key, value: string, s: string)
    requires IsWordChar(key[0]) && IsWordChar(key[|key| - 1]) && SameIgnoringCase(s, key)
    ensures Rewrite(WholeWord(key, value), s) == value
  {
    assert s[0..|key|] == s;
    assert IsWordChar(LowerChar(s[0])) && IsWordChar(LowerChar(s[|s| - 1]));
    assert MatchesWordAt(key, s, 0);
    RewriteFromAtMatch(WholeWord(key, value), s, 0);
  }

  /** A key longer than the text cannot occur in it. */
  lemma WordPassShorterText(key: Key, value: string, s: string)
    requires |s| < |key|
    ensures Rewrite(WholeWord(key, value), s) == s
  {
    WordPassUnchanged(key, value, s);
  }

  /** A key whose first letter does not occur, in either case, cannot occur. */
  lemma WordPassWithoutFirstChar(key: Key, value: string, s: string)
    requires forall j :: 0 <= j < |s| ==> LowerChar(s[j]) != LowerChar(key[0])
    ensures Rewrite(WholeWord(key, value), s) == s
  {
    WordPassUnchanged(key, value, s);
  }
}
