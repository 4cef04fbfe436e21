// The language decision of main.py: a comparison of two character counts,
// with the statistical detector as a fallback for a tie.

module Language {
  import opened Wrappers
  import opened Chars

  /** The two character classes the decision counts. */
  datatype CharClass = Ideograph | Latin

  /**
   * Ideographs are U+4E00..U+9FFF. A Latin letter is a letter whose lower
   * case is one of `a`..`z`: the ASCII letters and the Kelvin sign U+212A.
   */
  predicate InClass(c: char, cls: CharClass)
  {
    match cls
    case Ideograph => IsCjk(c)
    case Latin => IsAsciiLetter(c) || c == '\U{212A}'
  }

  function Count(s: string, cls: CharClass): (n: nat)
    ensures n <= |s|
    ensures n == 0 <==> forall j :: 0 <= j < |s| ==> !InClass(s[j], cls)
  {
    if s == [] then 0 else Count(s[1..], cls) + (if InClass(s[0], cls) then 1 else 0)
  }

  /**
   * The fallback detector: a language code, or `None` where the detector
   * raises its exception.
   */
  type Detector = string -> Option<string>

  /**
   * The decided language (`None` when undetectable) and the text, returned as
   * given. The decision compares the numbers of positions holding an ideograph
   * and holding a Latin letter.
   */
  function DetectLanguage(text: string, detector: Detector): (r: (Option<string>, string))
    ensures r.1 == text
    ensures Count(text, Ideograph) > Count(text, Latin) ==> r.0 == Some("chinese")
    ensures Count(text, Latin) > Count(text, Ideograph) ==> r.0 == Some("indonesian")
    ensures Count(text, Latin) == Count(text, Ideograph) ==> r.0 == detector(text)
    ensures var cjk, latin := Positions(text, Ideograph, |text|), Positions(text, Latin, |text|);
      (|cjk| > |latin| ==> r.0 == Some("chinese"))
      && (|latin| > |cjk| ==> r.0 == Some("indonesian"))
      && (|latin| == |cjk| ==> r.0 == detector(text))
  {
    CountIsPositions(text, Ideograph);
    CountIsPositions(text, Latin);
    var cjk, latin := Count(text, Ideograph), Count(text, Latin);
    if cjk > latin then (Some("chinese"), text)
    else if latin > cjk then (Some("indonesian"), text)
    else (detector(text), text)
  }

  lemma {:induction false} CountAppend(a: string, b: string, cls: CharClass)
    ensures Count(a + b, cls) == Count(a, cls) + Count(b, cls)
    decreases |a|
  {
    if a == [] {
      assert a + b == b;
    } else {
      assert (a + b)[0] == a[0] && (a + b)[1..] == a[1..] + b;
      CountAppend(a[1..], b, cls);
    }
  }

  /** Removing one character lowers the count by that character's share. */
  lemma CountRemove(s: string, k: nat, cls: CharClass)
    requires k < |s|
    ensures Count(s, cls) == Count(s[..k] + s[k + 1..], cls) + (if InClass(s[k], cls) then 1 else 0)
  {
    assert s == s[..k] + ([s[k]] + s[k + 1..]);
    CountAppend(s[..k], [s[k]] + s[k + 1..], cls);
    CountAppend(s[..k], s[k + 1..], cls);
  }

  /** Matching the first character of `a` with an equal one of `b` leaves equal multisets. */
  lemma MultisetRemoveBoth(a: string, b: string, k: nat)
    requires a != [] && k < |b| && b[k] == a[0] && multiset(a) == multiset(b)
    ensures multiset(a[1..]) == multiset(b[..k] + b[k + 1..])
  {
    assert b == b[..k] + [b[k]] + b[k + 1..];
    assert multiset(b) == multiset(b[..k]) + multiset{b[k]} + multiset(b[k + 1..]);
    assert multiset(b) == multiset(b[..k] + b[k + 1..]) + multiset{b[k]};
    assert a == [a[0]] + a[1..];
    assert multiset(a) == multiset{a[0]} + multiset(a[1..]);
    assert multiset(a[1..]) == multiset(a) - multiset{a[0]};
    assert multiset(b[..k] + b[k + 1..]) == multiset(b) - multiset{b[k]};
  }

  lemma OccursIn(c: char, b: string)
    requires c in multiset(b)
    ensures exists k :: 0 <= k < |b| && b[k] == c
  {
    assert c in b;
  }

  /** The counts depend only on which characters occur how often, not on their order. */
  lemma {:induction false} CountIgnoresOrder(a: string, b: string, cls: CharClass)
    requires multiset(a) == multiset(b)
    ensures Count(a, cls) == Count(b, cls)
    decreases |a|
  {
    if a != [] {
      OccursIn(a[0], b);
      var k :| 0 <= k < |b| && b[k] == a[0];
      var b' := b[..k] + b[k + 1..];
      MultisetRemoveBoth(a, b, k);
      CountIgnoresOrder(a[1..], b', cls);
      CountRemove(b, k, cls);
    }
  }

  /**
   * Reordering the characters of a text never changes the decision: unless
   * the counts tie, both orders get the same language, and a tie in one is a
   * tie in the other.
   */
  lemma DecisionIgnoresOrder(a: string, b: string, detector: Detector)
    requires multiset(a) == multiset(b)
    ensures (Count(a, Ideograph) == Count(a, Latin)) == (Count(b, Ideograph) == Count(b, Latin))
    ensures Count(a, Ideograph) != Count(a, Latin) ==> DetectLanguage(a, detector).0 == DetectLanguage(b, detector).0
  {
    CountIgnoresOrder(a, b, Ideograph);
    CountIgnoresOrder(a, b, Latin);
  }

  /** The positions of `s` below `k` whose character is in the class. */
  function Positions(s: string, cls: CharClass, k: nat): set<nat>
    requires k <= |s|
  {
    set j: nat | j < k && InClass(s[j], cls)
  }

  lemma CountSingle(c: char, cls: CharClass)
    ensures Count([c], cls) == if InClass(c, cls) then 1 else 0
  {
    assert [c][1..] == [];
  }

  /** One more position adds itself to the set exactly when it is in the class. */
  lemma PositionsStep(s: string, cls: CharClass, k: nat)
    requires 0 < k <= |s|
    ensures |Positions(s, cls, k)| == |Positions(s, cls, k - 1)| + if InClass(s[k - 1], cls) then 1 else 0
  {
    var p, q := Positions(s, cls, k), Positions(s, cls, k - 1);
    if InClass(s[k - 1], cls) {
      assert k - 1 in p && k - 1 !in q;
      assert p == q + {k - 1} by {
        forall j | j in p ensures j in q + {k - 1} {
          if j != k - 1 { assert j < k - 1; }
        }
      }
    } else {
      assert p == q by {
        forall j | j in p ensures j in q {
          assert j != k - 1;
        }
      }
    }
  }

  lemma {:induction false} CountPrefix(s: string, cls: CharClass, k: nat)
    requires k <= |s|
    ensures Count(s[..k], cls) == |Positions(s, cls, k)|
  {
    if k > 0 {
      CountPrefix(s, cls, k - 1);
      assert s[..k] == s[..k - 1] + [s[k - 1]];
      CountAppend(s[..k - 1], [s[k - 1]], cls);
      CountSingle(s[k - 1], cls);
      PositionsStep(s, cls, k);
    }
  }

  /** A count is the number of positions whose character is in the class, as `sum(1 for c in text if ...)` counts. */
  lemma CountIsPositions(s: string, cls: CharClass)
    ensures Count(s, cls) == |set j: nat | j < |s| && InClass(s[j], cls)|
  {
    CountPrefix(s, cls, |s|);
    assert s[..|s|] == s;
  }

  /** A text whose every character is in the class counts every character. */
  lemma {:induction false} CountAll(s: string, cls: CharClass)
    requires forall j :: 0 <= j < |s| ==> InClass(s[j], cls)
    ensures Count(s, cls) == |s|
  {
    if s != [] {
      assert forall j :: 0 <= j < |s| - 1 ==> s[1..][j] == s[j + 1];
      CountAll(s[1..], cls);
    }
  }

  /** A non-empty text of ideographs only is Chinese, whatever the detector says. */
  lemma OnlyIdeographsIsChinese(s: string, detector: Detector)
    requires s != [] && forall j :: 0 <= j < |s| ==> IsCjk(s[j])
    ensures DetectLanguage(s, detector).0 == Some("chinese")
  {
    CountAll(s, Ideograph);
    CountsDisjoint(s);
  }

  /** A non-empty text of ASCII letters only is Indonesian, whatever the detector says. */
  lemma OnlyLettersIsIndonesian(s: string, detector: Detector)
    requires s != [] && forall j :: 0 <= j < |s| ==> IsAsciiLetter(s[j])
    ensures DetectLanguage(s, detector).0 == Some("indonesian")
  {
    CountAll(s, Latin);
    CountsDisjoint(s);
  }

  /** No character is in both classes, so the two counts never exceed the length together. */
  lemma {:induction false} CountsDisjoint(s: string)
    ensures Count(s, Ideograph) + Count(s, Latin) <= |s|
  {
    if s != [] {
      CountsDisjoint(s[1..]);
    }
  }
}
