/** The superseded router iteration of `aionbot-core` (router.rs), matching on
    the rendered text of a concrete `Event`. */
module LegacyRouters {
  import opened Common
  import opened Events

  datatype Router =
    | Text(pattern: string)                          // `impl Router for str / &str / String`
    | Any                                            // `AnyRouter`
    | ExactMatch(pattern: string, ignoreSpaces: bool) // `ExactMatchRouter`

  /** `ExactMatchRouter::new`. */
  function NewExactMatch(pattern: string, ignoreSpaces: bool): (r: Router)
    ensures r.ExactMatch? && r.pattern == pattern && r.ignoreSpaces == ignoreSpaces
  {
    ExactMatch(pattern, ignoreSpaces)
  }

  /** `s.replace(" ", "")`: deletes every U+0020 and nothing else. */
  function RemoveSpaces(s: string): (r: string)
    ensures forall c :: c in r <==> c in s && c != ' '
    ensures |r| <= |s|
  {
    if s == [] then ""
    else (if s[0] == ' ' then "" else [s[0]]) + RemoveSpaces(s[1..])
  }

  /** `Router::matches`: `AnyRouter` matches everything; any other router
      matches a message that is its pattern, and matches only messages equal to
      its pattern once spaces are deleted from both. */
  function Matches(r: Router, e: Event): (b: bool)
    ensures r.Any? ==> b
    ensures !r.Any? && Render(e.plainData) == r.pattern ==> b
    ensures !r.Any? && b ==> RemoveSpaces(Render(e.plainData)) == RemoveSpaces(r.pattern)
  {
    var message := Render(e.plainData);
    match r
    case Text(p) => p == message
    case Any => true
    case ExactMatch(p, ignore) =>
      if ignore then RemoveSpaces(message) == RemoveSpaces(p) else message == p
  }

  /** Deleting spaces distributes over concatenation. */
  lemma {:induction false} RemoveSpacesAppend(a: string, b: string)
    ensures RemoveSpaces(a + b) == RemoveSpaces(a) + RemoveSpaces(b)
  {
    if a == [] {
      assert a + b == b;
    } else {
      assert (a + b)[1..] == a[1..] + b;
      RemoveSpacesAppend(a[1..], b);
    }
  }

  /** A string without spaces is left as it is, so deleting spaces is
      idempotent. */
  lemma {:induction false} RemoveSpacesKeepsSpaceless(s: string)
    requires ' ' !in s
    ensures RemoveSpaces(s) == s
    ensures RemoveSpaces(RemoveSpaces(s)) == s
  {
    if s != [] {
      assert ' ' !in s[1..];
      RemoveSpacesKeepsSpaceless(s[1..]);
    }
  }

  /** The string routers match exactly when the rendered message equals the
      pattern, with no trimming or space folding. */
  lemma TextMatchesIff(p: string, e: Event)
    ensures Matches(Text(p), e) <==> Render(e.plainData) == p
    ensures Matches(Text(p), e) <==> Matches(ExactMatch(p, false), e)
  {
  }

  /** This iteration's `AnyRouter` matches every event. */
  lemma AnyMatchesEvery(e: Event)
    ensures Matches(Any, e)
  {
  }

  /** `ExactMatchRouter` compares the rendered message with the pattern, after
      deleting every space from both when `ignore_spaces` is set. */
  lemma ExactMatchIff(p: string, ignoreSpaces: bool, e: Event)
    ensures !ignoreSpaces ==> (Matches(NewExactMatch(p, false), e) <==> Render(e.plainData) == p)
    ensures ignoreSpaces ==>
      (Matches(NewExactMatch(p, true), e) <==> RemoveSpaces(Render(e.plainData)) == RemoveSpaces(p))
  {
  }

  /** An exact match without `ignore_spaces` is also a match with it; a
      message or pattern with no spaces matches the same either way. */
  lemma ExactImpliesIgnoreSpaces(p: string, e: Event)
    ensures Matches(ExactMatch(p, false), e) ==> Matches(ExactMatch(p, true), e)
    ensures ' ' !in p && ' ' !in Render(e.plainData) ==>
      (Matches(ExactMatch(p, true), e) <==> Matches(ExactMatch(p, false), e))
  {
    if ' ' !in p && ' ' !in Render(e.plainData) {
      RemoveSpacesKeepsSpaceless(p);
      RemoveSpacesKeepsSpaceless(Render(e.plainData));
    }
  }

  /** Only U+0020 is deleted: a tab or a no-break space stays. */
  lemma OnlySpaceIsDeleted()
    ensures RemoveSpaces("a\tb") == "a\tb"
    ensures RemoveSpaces("a\U{A0}b") == "a\U{A0}b"
  {
    RemoveSpacesKeepsSpaceless("a\tb");
    RemoveSpacesKeepsSpaceless("a\U{A0}b");
  }

  /** The events of the unit tests of router.rs: the default event with the
      given segments. */
  function TestEvent(texts: seq<string>): Event
  {
    Event(Message(None, seq(|texts|, i requires 0 <= i < |texts| => SegmentFrom(texts[i]))),
          "", "", "", "", None)
  }

  /** A test event of one segment renders as its text. */
  lemma OneSegmentText(a: string)
    ensures Render(TestEvent([a]).plainData) == a
  {
    assert TestEvent([a]).plainData.segments == [SegmentFrom(a)];
    RenderBasics(a, None);
  }

  /** A test event of three segments renders as their texts in order. */
  lemma ThreeSegmentsText(a: string, b: string, c: string)
    ensures Render(TestEvent([a, b, c]).plainData) == a + b + c
  {
    var s := TestEvent([a, b, c]).plainData.segments;
    assert s == [SegmentFrom(a)] + [SegmentFrom(b)] + [SegmentFrom(c)];
    RenderAppend([SegmentFrom(a)] + [SegmentFrom(b)], [SegmentFrom(c)]);
    RenderAppend([SegmentFrom(a)], [SegmentFrom(b)]);
    RenderBasics(a, None);
    RenderBasics(b, None);
    RenderBasics(c, None);
  }

  /** The rendered messages of the four test events. */
  lemma TestEventTexts()
    ensures Render(TestEvent(["hello"]).plainData) == "hello"
    ensures Render(TestEvent(["world"]).plainData) == "world"
    ensures Render(TestEvent(["hello", " ", "world"]).plainData) == "hello world"
    ensures Render(TestEvent(["hello", " ", "world!"]).plainData) == "hello world!"
  {
    OneSegmentText("hello");
    OneSegmentText("world");
    ThreeSegmentsText("hello", " ", "world");
    ThreeSegmentsText("hello", " ", "world!");
  }

  /** `test_exact_match_router`: `"hello"` without `ignore_spaces` matches the
      `["hello"]` event only. */
  lemma ExactMatchRouterTest()
    ensures Matches(NewExactMatch("hello", false), TestEvent(["hello"]))
    ensures !Matches(NewExactMatch("hello", false), TestEvent(["world"]))
    ensures !Matches(NewExactMatch("hello", false), TestEvent(["hello", " ", "world"]))
  {
    TestEventTexts();
    assert "hello" != "world" by { assert "hello"[0] != "world"[0]; }
  }

  /** `test_exact_match_router_ignore_spaces`: `"hello world"` with
      `ignore_spaces` matches `["hello", " ", "world"]`. */
  lemma ExactMatchRouterIgnoreSpacesTestHit()
    ensures Matches(NewExactMatch("hello world", true), TestEvent(["hello", " ", "world"]))
  {
    TestEventTexts();
  }

  /** An ignore-spaces router rejects a message when one of the two has a
      letter the other lacks. */
  lemma IgnoreSpacesTellsLettersApart(p: string, e: Event, c: char)
    requires c != ' '
    requires (c in p && c !in Render(e.plainData)) || (c !in p && c in Render(e.plainData))
    ensures !Matches(ExactMatch(p, true), e)
  {
    if c in p {
      assert c in RemoveSpaces(p);
    } else {
      assert c in RemoveSpaces(Render(e.plainData));
    }
  }

  /** The letters that tell the texts of the ignore-spaces test apart. */
  lemma TestLetters()
    ensures 'w' in "hello world" && 'w' !in "hello"
    ensures 'h' in "hello world" && 'h' !in "world"
    ensures '!' in "hello world!" && '!' !in "hello world"
  {
    assert "hello world"[6] == 'w';
    assert "hello world!"[11] == '!';
  }

  /** `test_exact_match_router_ignore_spaces`: `"hello world"` with
      `ignore_spaces` rejects `["hello"]`, which lacks the `w`. */
  lemma IgnoreSpacesRejectsHello()
    ensures !Matches(NewExactMatch("hello world", true), TestEvent(["hello"]))
  {
    TestEventTexts();
    TestLetters();
    IgnoreSpacesTellsLettersApart("hello world", TestEvent(["hello"]), 'w');
  }

  /** `test_exact_match_router_ignore_spaces`: `"hello world"` with
      `ignore_spaces` rejects `["world"]`, which lacks the `h`. */
  lemma IgnoreSpacesRejectsWorld()
    ensures !Matches(NewExactMatch("hello world", true), TestEvent(["world"]))
  {
    TestEventTexts();
    TestLetters();
    IgnoreSpacesTellsLettersApart("hello world", TestEvent(["world"]), 'h');
  }

  /** `test_exact_match_router_ignore_spaces`: `"hello world"` with
      `ignore_spaces` rejects `["hello", " ", "world!"]`, which has a `!`. */
  lemma IgnoreSpacesRejectsHappy()
    ensures !Matches(NewExactMatch("hello world", true), TestEvent(["hello", " ", "world!"]))
  {
    TestEventTexts();
    TestLetters();
    IgnoreSpacesTellsLettersApart("hello world", TestEvent(["hello", " ", "world!"]), '!');
  }
}
