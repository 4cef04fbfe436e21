// The Chinese polisher of main.py: ordered literal replacements from a
// small table, then a terminal full stop when the text lacks a sentence mark.

module Polisher {
  import opened Wrappers
  import opened Chars
  import opened Patterns
  import opened Rewriting

  /** Ordered literal replacements, in the table's insertion order. */
  type PolishTable = seq<(Key, string)>

  /** The table of main.py:359-363. */
  const PolishMap: PolishTable := [("謝謝你", "謝謝。"), ("好的", "好。"), ("ok", "好。")]

  predicate IsSentenceMark(c: char) { c == '。' || c == '！' || c == '？' }

  /**
   * The search for `[。！？]$`: without the multi-line flag `$` matches at the
   * very end and also just before a final line feed.
   */
  predicate EndsWithMark(s: string)
  {
    (|s| >= 1 && IsSentenceMark(s[|s| - 1]))
    || (|s| >= 2 && s[|s| - 1] == '\n' && IsSentenceMark(s[|s| - 2]))
  }

  /** Text put in front does not change how a text ends. */
  lemma MarkAfterPrefix(p: string, t: string)
    requires EndsWithMark(t)
    ensures EndsWithMark(p + t)
  {
    var u := p + t;
    assert u[|u| - 1] == t[|t| - 1];
    if |t| >= 2 {
      assert u[|u| - 2] == t[|t| - 2];
    }
  }

  /** The replacement loop: each `str.replace` works on the previous result. */
  function ReplaceAll(table: PolishTable, s: string): string
  {
    if table == [] then s else ReplaceAll(table[1..], Rewrite(Literal(table[0].0, table[0].1), s))
  }

  function Polish(table: PolishTable, s: string): (r: string)
    ensures EndsWithMark(r)
    ensures EndsWithMark(ReplaceAll(table, s)) ==> r == ReplaceAll(table, s)
    ensures !EndsWithMark(ReplaceAll(table, s)) ==> r == Strip(ReplaceAll(table, s)) + "。"
  {
    var t := ReplaceAll(table, s);
    if EndsWithMark(t) then t else Strip(t) + "。"
  }

  method PolishChinese(table: PolishTable, text: string) returns (r: string)
    ensures r == Polish(table, text)
  {
    r := text;
    for i := 0 to |table|
      invariant ReplaceAll(table[i..], r) == ReplaceAll(table, text)
    {
      assert table[i..][1..] == table[i + 1..];
      r := RewriteScan(Literal(table[i].0, table[i].1), r);
    }
    if !EndsWithMark(r) {
      r := Strip(r) + "。";
    }
  }

  /** A literal key whose first character does not occur is never replaced. */
  lemma LiteralPassWithoutFirstChar(key: Key, value: string, s: string)
    requires key[0] !in s
    ensures Rewrite(Literal(key, value), s) == s
  {
    RewriteWithoutMatch(Literal(key, value), s);
  }

  /** The table's replacements leave a text without 謝, 好 and o untouched. */
  lemma ReplaceAllWithoutKeys(s: string)
    requires '謝' !in s && '好' !in s && 'o' !in s
    ensures ReplaceAll(PolishMap, s) == s
  {
    LiteralPassWithoutFirstChar("謝謝你", "謝謝。", s);
    LiteralPassWithoutFirstChar("好的", "好。", s);
    LiteralPassWithoutFirstChar("ok", "好。", s);
    assert ReplaceAll(PolishMap[2..], s) == ReplaceAll([], s);
    assert ReplaceAll(PolishMap[1..], s) == ReplaceAll(PolishMap[2..], s);
  }

  // ---------------------------------------------------------------------
  // What one `str.replace` pass leaves behind.

  /** `k` is written in `s` at position `j`. */
  predicate OccursAt(k: string, s: string, j: nat)
  {
    j + |k| <= |s| && s[j..j + |k|] == k
  }

  /** `k` occurs in `s`: Python's `k in s`. */
  predicate Occurs(k: string, s: string)
  {
    exists j: nat :: j <= |s| && OccursAt(k, s, j)
  }

  /**
   * A replacement `v` that no occurrence of `k` can reach into: the last
   * character of `v` is not in `k`, and the last character of `k` is not in `v`.
   */
  predicate Separated(k: string, v: string)
  {
    k != [] && v != [] && v[|v| - 1] !in k && k[|k| - 1] !in v
  }

  lemma RewriteFromAtEnd(rule: Rule, s: string)
    ensures RewriteFrom(rule, s, |s|) == []
  {
  }

  /** Text that starts with `v` does not start with a suffix of `k`. */
  lemma ReplacementNotSuffix(k: string, v: string, out: string, n: nat)
    requires Separated(k, v) && |v| <= |out| && out[..|v|] == v && 0 < n <= |k| && n <= |out|
    ensures out[..n] != k[|k| - n..]
  {
    if n <= |v| {
      assert out[..n][n - 1] == v[n - 1];
    } else {
      assert out[..n][|v| - 1] == v[|v| - 1];
    }
  }

  /** Text that starts with `v` holds no occurrence of `k` that starts inside `v`. */
  lemma ReplacementNotInside(k: string, v: string, u: string, q: nat)
    requires Separated(k, v) && |v| <= |u| && u[..|v|] == v && q < |v| && q + |k| <= |u|
    ensures u[q..q + |k|] != k
  {
    if q + |k| <= |v| {
      assert u[q..q + |k|][|k| - 1] == v[q + |k| - 1];
    } else {
      assert u[q..q + |k|][|v| - 1 - q] == v[|v| - 1];
    }
  }

  /** An occurrence that reaches the appended full stop would contain it. */
  lemma StopNotInside(k: string, s: string, j: nat)
    requires k != [] && '。' !in k && j + |k| <= |s| + 1 && |s| < j + |k|
    ensures (s + "。")[j..j + |k|] != k
  {
    var u := s + "。";
    assert u[j..j + |k|][|s| - j] == '。';
  }

  lemma SliceOfSlice(s: string, a: nat, b: nat, j: nat, n: nat)
    requires a <= b <= |s| && j + n <= b - a
    ensures s[a..b][j..j + n] == s[a + j..a + j + n]
  {
    var x := s[a..b][j..j + n];
    var y := s[a + j..a + j + n];
    assert |x| == n == |y|;
    forall t | 0 <= t < n ensures x[t] == y[t] {
      assert x[t] == s[a..b][j + t] == s[a + j + t];
    }
  }

  /**
   * When `v` is separated from `k`, output of the pass that starts with the
   * last `n` characters of `k` was copied from the text.
   */
  lemma {:induction false} CopiedSuffix(key: Key, v: string, k: string, s: string, i: nat, n: nat)
    requires Separated(k, v) && i <= |s| && 0 < n <= |k|
    requires var out := RewriteFrom(Literal(key, v), s, i); n <= |out| && out[..n] == k[|k| - n..]
    ensures i + n <= |s| && s[i..i + n] == k[|k| - n..]
    decreases n
  {
    var rule := Literal(key, v);
    var out := RewriteFrom(rule, s, i);
    var w := k[|k| - n..];
    if i == |s| {
      RewriteFromAtEnd(rule, s);
      assert false;
    }
    match Match(rule, s, i)
    case Some(h) =>
      RewriteFromAtMatch(rule, s, i);
      var rest := RewriteFrom(rule, s, h.end);
      assert out == v + rest;
      assert out[..|v|] == v;
      ReplacementNotSuffix(k, v, out, n);
      assert false;
    case None =>
      RewriteFromAtNoMatch(rule, s, i);
      var rest := RewriteFrom(rule, s, i + 1);
      assert out == [s[i]] + rest;
      assert s[i] == out[..n][0] == w[0];
      if n > 1 {
        assert rest[..n - 1] == out[..n][1..] == k[|k| - (n - 1)..];
        CopiedSuffix(key, v, k, s, i + 1, n - 1);
        assert s[i..i + n] == [s[i]] + s[i + 1..i + n];
      }
  }

  /** An occurrence after a prefix `pre` is an occurrence in what follows it. */
  lemma ShiftedOccurrence(k: string, pre: string, rest: string, q: nat)
    requires |pre| <= q
    ensures OccursAt(k, pre + rest, q) ==> OccursAt(k, rest, q - |pre|)
  {
    if OccursAt(k, pre + rest, q) {
      var u := pre + rest;
      assert rest[q - |pre|..q - |pre| + |k|] == u[q..q + |k|];
    }
  }

  /** An occurrence at the start of the output was copied from the text. */
  lemma OccurrenceAtStartCopied(key: Key, v: string, k: string, s: string, i: nat)
    requires Separated(k, v) && i <= |s|
    ensures OccursAt(k, RewriteFrom(Literal(key, v), s, i), 0) ==> OccursAt(k, s, i)
  {
    var out := RewriteFrom(Literal(key, v), s, i);
    if OccursAt(k, out, 0) {
      assert out[..|k|] == k[|k| - |k|..];
      CopiedSuffix(key, v, k, s, i, |k|);
    }
  }

  /**
   * A pass whose replacement is separated from `k` leaves no occurrence of
   * `k`, as long as every occurrence of `k` in the rest of the text is
   * where the pass's key matches.
   */
  lemma {:induction false} NoOccurrenceFrom(key: Key, v: string, k: string, s: string, i: nat)
    requires Separated(k, v) && i <= |s|
    requires forall j: nat :: i <= j && OccursAt(k, s, j) ==> Match(Literal(key, v), s, j).Some?
    ensures !Occurs(k, RewriteFrom(Literal(key, v), s, i))
    decreases |s| - i
  {
    var rule := Literal(key, v);
    var out := RewriteFrom(rule, s, i);
    if i == |s| {
      RewriteFromAtEnd(rule, s);
    } else {
      match Match(rule, s, i)
      case Some(h) =>
        RewriteFromAtMatch(rule, s, i);
        var rest := RewriteFrom(rule, s, h.end);
        assert out == v + rest;
        assert out[..|v|] == v;
        NoOccurrenceFrom(key, v, k, s, h.end);
        forall q: nat | q <= |out| ensures !OccursAt(k, out, q) {
          if q >= |v| {
            ShiftedOccurrence(k, v, rest, q);
          } else if q + |k| <= |out| {
            ReplacementNotInside(k, v, out, q);
          }
        }
      case None =>
        RewriteFromAtNoMatch(rule, s, i);
        var rest := RewriteFrom(rule, s, i + 1);
        assert out == [s[i]] + rest;
        NoOccurrenceFrom(key, v, k, s, i + 1);
        OccurrenceAtStartCopied(key, v, k, s, i);
        forall q: nat | 1 <= q <= |out| ensures !OccursAt(k, out, q) {
          ShiftedOccurrence(k, [s[i]], rest, q);
        }
    }
  }

  /** After a pass whose value is separated from its key, the key no longer occurs. */
  lemma PassRemovesKey(key: Key, v: string, s: string)
    requires Separated(key, v)
    ensures !Occurs(key, Rewrite(Literal(key, v), s))
  {
    NoOccurrenceFrom(key, v, key, s, 0);
  }

  /** A pass whose value is separated from `k` does not create an occurrence of `k`. */
  lemma PassKeepsAbsent(key: Key, v: string, k: string, s: string)
    requires Separated(k, v) && !Occurs(k, s)
    ensures !Occurs(k, Rewrite(Literal(key, v), s))
  {
    NoOccurrenceFrom(key, v, k, s, 0);
  }

  /** A pass whose key does not occur leaves the text unchanged. */
  lemma PassWithoutKey(key: Key, v: string, s: string)
    requires !Occurs(key, s)
    ensures Rewrite(Literal(key, v), s) == s
  {
    forall j | 0 <= j < |s| ensures Match(Literal(key, v), s, j).None? {
      if Match(Literal(key, v), s, j).Some? {
        assert OccursAt(key, s, j);
      }
    }
    RewriteWithoutMatch(Literal(key, v), s);
  }

  /** No key of the table occurs. */
  predicate NoPolishKey(s: string)
  {
    !Occurs("謝謝你", s) && !Occurs("好的", s) && !Occurs("ok", s)
  }

  /** The table's three passes, one after the other. */
  lemma ReplaceAllUnfolded(s: string)
    ensures ReplaceAll(PolishMap, s)
      == Rewrite(Literal("ok", "好。"), Rewrite(Literal("好的", "好。"), Rewrite(Literal("謝謝你", "謝謝。"), s)))
  {
    var t1 := Rewrite(Literal("謝謝你", "謝謝。"), s);
    var t2 := Rewrite(Literal("好的", "好。"), t1);
    assert ReplaceAll(PolishMap[2..], t2) == ReplaceAll([], Rewrite(Literal("ok", "好。"), t2));
    assert ReplaceAll(PolishMap[1..], t1) == ReplaceAll(PolishMap[2..], t2);
  }

  lemma PolishMapSeparated()
    ensures Separated("謝謝你", "謝謝。") && Separated("謝謝你", "好。")
    ensures Separated("好的", "好。") && Separated("ok", "好。")
  {
    assert "謝謝。"[2] == '。' && "好。"[1] == '。';
    assert "謝謝你"[2] == '你' && "好的"[1] == '的' && "ok"[1] == 'k';
  }

  /** After the table's replacements none of its keys occurs, whatever the text. */
  lemma ReplaceAllRemovesKeys(s: string)
    ensures NoPolishKey(ReplaceAll(PolishMap, s))
  {
    ReplaceAllUnfolded(s);
    PolishMapSeparated();
    var t1 := Rewrite(Literal("謝謝你", "謝謝。"), s);
    var t2 := Rewrite(Literal("好的", "好。"), t1);
    PassRemovesKey("謝謝你", "謝謝。", s);
    PassKeepsAbsent("好的", "好。", "謝謝你", t1);
    PassRemovesKey("好的", "好。", t1);
    PassKeepsAbsent("ok", "好。", "謝謝你", t2);
    PassKeepsAbsent("ok", "好。", "好的", t2);
    PassRemovesKey("ok", "好。", t2);
  }

  /** Text in which no key occurs is left unchanged by the replacements. */
  lemma ReplaceAllWithoutPolishKey(s: string)
    requires NoPolishKey(s)
    ensures ReplaceAll(PolishMap, s) == s
  {
    ReplaceAllUnfolded(s);
    PassWithoutKey("謝謝你", "謝謝。", s);
    PassWithoutKey("好的", "好。", s);
    PassWithoutKey("ok", "好。", s);
  }

  lemma NoOccurrenceInSlice(k: string, s: string, a: nat, b: nat)
    requires a <= b <= |s| && !Occurs(k, s)
    ensures !Occurs(k, s[a..b])
  {
    if j: nat :| j <= |s[a..b]| && OccursAt(k, s[a..b], j) {
      SliceOfSlice(s, a, b, j, |k|);
      assert OccursAt(k, s, a + j);
      assert false;
    }
  }

  lemma NoOccurrenceWithStop(k: string, s: string)
    requires k != [] && '。' !in k && !Occurs(k, s)
    ensures !Occurs(k, s + "。")
  {
    var u := s + "。";
    if j: nat :| j <= |u| && OccursAt(k, u, j) {
      if j + |k| <= |s| {
        assert s[j..j + |k|] == u[j..j + |k|];
        assert OccursAt(k, s, j);
        assert false;
      } else {
        StopNotInside(k, s, j);
        assert false;
      }
    }
  }

  lemma PolishedWithoutKey(s: string)
    ensures NoPolishKey(Polish(PolishMap, s))
  {
    var t := ReplaceAll(PolishMap, s);
    ReplaceAllRemovesKeys(s);
    if !EndsWithMark(t) {
      var a, b :| 0 <= a <= b <= |t| && Strip(t) == t[a..b];
      NoOccurrenceInSlice("謝謝你", t, a, b);
      NoOccurrenceInSlice("好的", t, a, b);
      NoOccurrenceInSlice("ok", t, a, b);
      assert "謝謝你"[0] != '。' && "謝謝你"[1] != '。' && "謝謝你"[2] != '。';
      assert "好的"[0] != '。' && "好的"[1] != '。' && "ok"[0] != '。' && "ok"[1] != '。';
      NoOccurrenceWithStop("謝謝你", Strip(t));
      NoOccurrenceWithStop("好的", Strip(t));
      NoOccurrenceWithStop("ok", Strip(t));
    }
  }

  /** Polishing twice is polishing once, for every text. */
  lemma PolishIdempotent(s: string)
    ensures Polish(PolishMap, Polish(PolishMap, s)) == Polish(PolishMap, s)
  {
    var y := Polish(PolishMap, s);
    PolishedWithoutKey(s);
    ReplaceAllWithoutPolishKey(y);
  }

  /** An empty message polishes to a lone full stop. */
  lemma PolishEmpty()
    ensures Polish(PolishMap, "") == "。"
  {
    ReplaceAllWithoutKeys("");
  }

  /** A text the table leaves alone and that lacks a final mark just gains a full stop. */
  lemma PolishWithoutKeys(s: string)
    requires '謝' !in s && '好' !in s && 'o' !in s
    requires s != [] && !IsSpace(s[0]) && !IsSpace(s[|s| - 1]) && !EndsWithMark(s)
    ensures Polish(PolishMap, s) == s + "。"
  {
    ReplaceAllWithoutKeys(s);
    StripTrimmed(s);
  }

  /** The translator's failure sentinel gains a full stop. */
  lemma PolishFailureSentinel()
    ensures Polish(PolishMap, "⚠️ 翻譯失敗") == "⚠️ 翻譯失敗。"
  {
    var t := "⚠️ 翻譯失敗";
    assert |t| == 7 && t[6] == '敗' && t[5] == '失' && t[0] == '\U{26A0}';
    assert '謝' !in t && '好' !in t && 'o' !in t;
    PolishWithoutKeys(t);
  }

  /** `謝謝你` is rewritten by the first entry and then already ends with a mark. */
  lemma PolishThanksYou()
    ensures Polish(PolishMap, "謝謝你") == "謝謝。"
  {
    var rule := Literal("謝謝你", "謝謝。");
    assert Match(rule, "謝謝你", 0) == Some(Hit(3, "謝謝。"));
    RewriteFromAtMatch(rule, "謝謝你", 0);
    assert Rewrite(rule, "謝謝你") == "謝謝。";
    LiteralPassWithoutFirstChar("好的", "好。", "謝謝。");
    LiteralPassWithoutFirstChar("ok", "好。", "謝謝。");
    assert ReplaceAll(PolishMap[2..], "謝謝。") == ReplaceAll([], "謝謝。");
    assert ReplaceAll(PolishMap[1..], "謝謝。") == ReplaceAll(PolishMap[2..], "謝謝。");
  }

  /** The replacement is case-sensitive: `OK` is kept and only gains a full stop. */
  lemma PolishUpperOk()
    ensures Polish(PolishMap, "OK") == "OK。"
  {
    assert "OK"[1] == 'K';
    PolishWithoutKeys("OK");
  }
}
