/** The router predicate algebra of `aionbot-core`: the `Router` trait of
    `lib.rs`, its blanket implementation for string patterns, and the routers of
    `router/logic.rs`, `router/matcher.rs`, `router/command.rs` and
    `router/error.rs`. An event is seen through `content()`, a type-erased
    value that each router downcasts to the one type it understands; a failed
    downcast is a miss, never a fault. */
module Routers {
  import opened Common
  import Strings

  /** The dynamic type of a type-erased value, as `downcast` compares it. */
  datatype TypeTag = StrTag | StringTag | ErrorTag(kind: string) | OtherTag(name: string)

  /** The content of an event: a `&str`, a `String`, a value of the error type
      named `kind`, or a value of some other type. */
  datatype Value =
    | StrRef(text: string)
    | OwnedString(text: string)
    | ErrorValue(kind: string, message: string)
    | Opaque(name: string, repr: string)

  /** `dyn Event` as the routers see it. */
  datatype DynEvent = DynEvent(content: Value)

  function TypeOf(v: Value): TypeTag
  {
    match v
    case StrRef(_) => StrTag
    case OwnedString(_) => StringTag
    case ErrorValue(kind, _) => ErrorTag(kind)
    case Opaque(name, _) => OtherTag(name)
  }

  /** `Box<dyn Any>::downcast::<T>()` for the type with tag `t`: the value
      itself when its type is `t`, nothing otherwise. */
  function Downcast(v: Value, t: TypeTag): (r: Option<Value>)
    ensures r.Some? <==> TypeOf(v) == t
    ensures r.Some? ==> r.value == v
  {
    if TypeOf(v) == t then Some(v) else None
  }

  /** `downcast::<&str>()`: the text of a `&str` content. A `String` content is
      not a `&str` and gives nothing. */
  function AsStr(v: Value): (r: Option<string>)
    ensures r.Some? <==> TypeOf(v) == StrTag
    ensures r.Some? ==> v == StrRef(r.value)
  {
    match v
    case StrRef(s) => Some(s)
    case _ => None
  }

  datatype Router =
    | Pattern(pattern: string)                             // `impl Router for T: AsRef<str>`
    | All                                                  // `AllRouter`
    | AnyOf(routers: seq<Router>)                          // `AnyRouter`
    | ExactMatch(value: Value)                             // `ExactMatchRouter<T>`
    | StartsWith(prefix: string)                           // `StartsWithRouter<&str>`
    | Contains(infix: string)                              // `ContainsRouter<&str>`
    | EndsWith(suffix: string)                             // `EndsWithRouter<&str>`
    | Command(prefixes: seq<string>, commands: seq<string>) // `CommandRouter`
    | ErrorKind(kind: string)                              // `ErrorRouter<E>`

  /** `Router::matches`. The text routers only ever match a `&str` content;
      `ExactMatchRouter` matches exactly the content equal to its value;
      `ErrorRouter` matches exactly the errors of its own kind; `AllRouter`
      matches everything. */
  function Matches(r: Router, e: DynEvent): (b: bool)
    ensures b && (r.Pattern? || r.StartsWith? || r.Contains? || r.EndsWith? || r.Command?) ==> e.content.StrRef?
    ensures r.ExactMatch? ==> (b <==> e.content == r.value)
    ensures r.ErrorKind? ==> (b <==> e.content.ErrorValue? && e.content.kind == r.kind)
    ensures r.All? ==> b
    decreases r
  {
    match r
    case Pattern(p) => var s := AsStr(e.content); s.Some? && s.value == p
    case All => true
    case AnyOf(rs) => exists i | 0 <= i < |rs| :: Matches(rs[i], e)
    case ExactMatch(pattern) => var v := Downcast(e.content, TypeOf(pattern)); v.Some? && v.value == pattern
    case StartsWith(p) => var s := AsStr(e.content); s.Some? && Strings.StartsWith(s.value, p)
    case Contains(p) => var s := AsStr(e.content); s.Some? && Strings.Contains(s.value, p)
    case EndsWith(p) => var s := AsStr(e.content); s.Some? && Strings.EndsWith(s.value, p)
    case Command(prefixes, commands) => var s := AsStr(e.content); s.Some? && CommandMatches(s.value, prefixes, commands)
    case ErrorKind(kind) => Downcast(e.content, ErrorTag(kind)).Some?
  }

  // ---------------------------------------------------------------- lib.rs

  /** A string pattern matches exactly the events whose content is the `&str`
      equal to it: no trimming, no folding, and a `String` content misses. */
  lemma PatternMatchesIff(p: string, e: DynEvent)
    ensures Matches(Pattern(p), e) <==> e.content == StrRef(p)
  {
  }

  /** The blanket string router and `ExactMatchRouter<&str>` agree. */
  lemma PatternAgreesWithExactMatch(p: string, e: DynEvent)
    ensures Matches(Pattern(p), e) == Matches(ExactMatch(StrRef(p)), e)
  {
  }

  // ------------------------------------------------------- router/logic.rs

  /** `AllRouter` matches every event; `AnyRouter` with no children matches none. */
  lemma AllAndEmptyAny(e: DynEvent)
    ensures Matches(All, e)
    ensures !Matches(AnyOf([]), e)
  {
  }

  /** `AnyRouter` over a concatenation is the disjunction of its halves. */
  lemma AnyOfAppend(a: seq<Router>, b: seq<Router>, e: DynEvent)
    ensures Matches(AnyOf(a + b), e) <==> Matches(AnyOf(a), e) || Matches(AnyOf(b), e)
  {
    if Matches(AnyOf(a + b), e) {
      var i :| 0 <= i < |a + b| && Matches((a + b)[i], e);
      if i >= |a| {
        assert (a + b)[i] == b[i - |a|];
      }
    }
    if Matches(AnyOf(a), e) {
      var i :| 0 <= i < |a| && Matches(a[i], e);
      assert (a + b)[i] == a[i];
    }
    if Matches(AnyOf(b), e) {
      var j :| 0 <= j < |b| && Matches(b[j], e);
      assert (a + b)[|a| + j] == b[j];
    }
  }

  /** The order of the children does not matter: the same children in any
      order give the same answer. */
  lemma AnyOfOrderIndependent(a: seq<Router>, b: seq<Router>, e: DynEvent)
    requires multiset(a) == multiset(b)
    ensures Matches(AnyOf(a), e) == Matches(AnyOf(b), e)
  {
    if Matches(AnyOf(a), e) {
      var i :| 0 <= i < |a| && Matches(a[i], e);
      assert a[i] in multiset(b);
      var j :| 0 <= j < |b| && b[j] == a[i];
    }
    if Matches(AnyOf(b), e) {
      var j :| 0 <= j < |b| && Matches(b[j], e);
      assert b[j] in multiset(a);
      var i :| 0 <= i < |a| && a[i] == b[j];
    }
  }

  /** An `AnyRouter` with an `AllRouter` among its children always matches. */
  lemma AnyOfWithAll(rs: seq<Router>, e: DynEvent)
    requires All in rs
    ensures Matches(AnyOf(rs), e)
  {
    var i :| 0 <= i < |rs| && rs[i] == All;
  }

  // ----------------------------------------------------- router/matcher.rs

  /** `ExactMatchRouter<T>` matches exactly when the content has the type of
      the pattern and equals it; a content of another type misses. */
  lemma ExactMatchIff(pattern: Value, e: DynEvent)
    ensures Matches(ExactMatch(pattern), e) <==> TypeOf(e.content) == TypeOf(pattern) && e.content == pattern
    ensures TypeOf(e.content) != TypeOf(pattern) ==> !Matches(ExactMatch(pattern), e)
  {
  }

  /** The routers that read text. */
  predicate ReadsText(r: Router)
  {
    r.Pattern? || r.StartsWith? || r.Contains? || r.EndsWith? || r.Command?
  }

  /** Every router that reads text misses an event whose content is not a `&str`. */
  lemma TextRoutersMissOtherTypes(r: Router, e: DynEvent)
    requires ReadsText(r) && TypeOf(e.content) != StrTag
    ensures !Matches(r, e)
  {
  }

  /** The string matchers in terms of the content's text. */
  lemma StringMatchersIff(p: string, e: DynEvent)
    ensures Matches(StartsWith(p), e) <==> e.content.StrRef? && Strings.StartsWith(e.content.text, p)
    ensures Matches(EndsWith(p), e) <==> e.content.StrRef? && Strings.EndsWith(e.content.text, p)
    ensures Matches(Contains(p), e) <==> e.content.StrRef? && exists i :: Strings.OccursAt(e.content.text, p, i)
  {
  }

  /** A starts-with or ends-with match is also a contains match. */
  lemma AffixMatchImpliesContains(p: string, e: DynEvent)
    ensures Matches(StartsWith(p), e) ==> Matches(Contains(p), e)
    ensures Matches(EndsWith(p), e) ==> Matches(Contains(p), e)
  {
    if Matches(StartsWith(p), e) {
      Strings.StartsWithContains(e.content.text, p);
    }
    if Matches(EndsWith(p), e) {
      Strings.EndsWithContains(e.content.text, p);
    }
  }

  /** The empty pattern matches every text content. */
  lemma EmptyPatternMatchesText(e: DynEvent)
    requires e.content.StrRef?
    ensures Matches(StartsWith(""), e) && Matches(Contains(""), e) && Matches(EndsWith(""), e)
  {
    Strings.EmptyPatternEverywhere(e.content.text);
  }

  // ----------------------------------------------------- router/command.rs

  /** `self.command.iter().any(|c| rest.starts_with(c))`. */
  function AnyCommandStarts(rest: string, commands: seq<string>): (r: bool)
    ensures r <==> exists j | 0 <= j < |commands| :: Strings.StartsWith(rest, commands[j])
  {
    if commands == [] then false
    else Strings.StartsWith(rest, commands[0]) || AnyCommandStarts(rest, commands[1..])
  }

  /** The loop of `CommandRouter::matches` over the prefixes: some prefix
      starts the text and the rest after it starts with some command. */
  function CommandMatches(text: string, prefixes: seq<string>, commands: seq<string>): (r: bool)
    ensures r <==> exists i, j | 0 <= i < |prefixes| && 0 <= j < |commands| ::
                     Strings.StartsWith(text, prefixes[i] + commands[j])
  {
    if prefixes == [] then false
    else
      var p := prefixes[0];
      var here := Strings.StartsWith(text, p) && AnyCommandStarts(text[|p|..], commands);
      forall j | 0 <= j < |commands|
        ensures (Strings.StartsWith(text, p) && Strings.StartsWith(text[|p|..], commands[j]))
                <==> Strings.StartsWith(text, p + commands[j])
      {
        Strings.StartsWithConcat(text, p, commands[j]);
      }
      var later := CommandMatches(text, prefixes[1..], commands);
      assert later <==> exists i, j | 1 <= i < |prefixes| && 0 <= j < |commands| ::
                          Strings.StartsWith(text, prefixes[i] + commands[j]) by {
        forall i | 1 <= i < |prefixes| ensures prefixes[i] == prefixes[1..][i - 1] { }
      }
      here || later
  }

  /** `CommandRouter::default()`: prefix `"/"`, command `"help"`; it matches
      the texts that start with `"/help"`. */
  function DefaultCommand(): (r: Router)
    ensures r.Command?
    ensures forall e: DynEvent :: Matches(r, e) <==> e.content.StrRef? && Strings.StartsWith(e.content.text, "/help")
  {
    var r := Command(["/"], ["help"]);
    assert ["/"][0] + ["help"][0] == "/help";
    r
  }

  /** `CommandRouter::new(prefixes, command)`. */
  function NewCommand(prefixes: seq<string>, commands: seq<string>): (r: Router)
    ensures forall e: DynEvent :: Matches(r, e) <==>
      e.content.StrRef? && exists i, j | 0 <= i < |prefixes| && 0 <= j < |commands| ::
        Strings.StartsWith(e.content.text, prefixes[i] + commands[j])
  {
    Command(prefixes, commands)
  }

  /** `CommandRouter::command(command)`: the given commands behind the
      default prefix `"/"`. */
  function CommandWith(commands: seq<string>): (r: Router)
    ensures forall e: DynEvent :: Matches(r, e) <==>
      e.content.StrRef? && exists j | 0 <= j < |commands| :: Strings.StartsWith(e.content.text, "/" + commands[j])
  {
    var r := Command(DefaultCommand().prefixes, commands);
    assert r.prefixes == ["/"];
    r
  }

  /** With no prefix or no command nothing matches. */
  lemma EmptyCommandNeverMatches(prefixes: seq<string>, commands: seq<string>, e: DynEvent)
    requires prefixes == [] || commands == []
    ensures !Matches(Command(prefixes, commands), e)
  {
  }

  /** Whatever follows the command does not matter: a matching text still
      matches with any suffix appended, as `"/help@bot"` does. */
  lemma CommandIgnoresSuffix(prefixes: seq<string>, commands: seq<string>, text: string, suffix: string)
    requires Matches(Command(prefixes, commands), DynEvent(StrRef(text)))
    ensures Matches(Command(prefixes, commands), DynEvent(StrRef(text + suffix)))
  {
    var i, j :| 0 <= i < |prefixes| && 0 <= j < |commands| && Strings.StartsWith(text, prefixes[i] + commands[j]);
    var pc := prefixes[i] + commands[j];
    assert (text + suffix)[..|pc|] == text[..|pc|];
    assert Strings.StartsWith(text + suffix, pc);
  }

  /** The unit test of command.rs, for `default()`. */
  lemma DefaultCommandTest()
    ensures !Matches(DefaultCommand(), DynEvent(StrRef("help")))
    ensures Matches(DefaultCommand(), DynEvent(StrRef("/help")))
    ensures Matches(DefaultCommand(), DynEvent(StrRef("/help@bot")))
    ensures !Matches(DefaultCommand(), DynEvent(StrRef("/not help")))
  {
    assert "/help@bot"[..5] == "/help";
    assert "/not help"[..5] != "/help" by { assert "/not help"[1] != "/help"[1]; }
  }

  /** The unit test of command.rs, for `command(["cmd", "command"])`: the texts
      it accepts. */
  lemma CommandWithTestHits()
    ensures Matches(CommandWith(["cmd", "command"]), DynEvent(StrRef("/cmd")))
    ensures Matches(CommandWith(["cmd", "command"]), DynEvent(StrRef("/cmd@bot")))
    ensures Matches(CommandWith(["cmd", "command"]), DynEvent(StrRef("/command")))
  {
    var cs := ["cmd", "command"];
    assert "/" + cs[0] == "/cmd" && "/" + cs[1] == "/command";
    assert "/cmd@bot"[..4] == "/cmd";
  }

  /** The unit test of command.rs, for `command(["cmd", "command"])`: the texts
      it rejects. */
  lemma CommandWithTestMisses()
    ensures !Matches(CommandWith(["cmd", "command"]), DynEvent(StrRef("help")))
    ensures !Matches(CommandWith(["cmd", "command"]), DynEvent(StrRef("/not cmd")))
  {
    var cs := ["cmd", "command"];
    assert "/" + cs[0] == "/cmd" && "/" + cs[1] == "/command";
    assert "/not cmd"[1] != "/cmd"[1] && "/not cmd"[1] != "/command"[1];
    assert "help"[0] != "/cmd"[0];
  }

  /** The unit test of command.rs, for `new(["!"], ["cmd"])`: the texts it
      accepts. */
  lemma NewCommandTestHits()
    ensures Matches(NewCommand(["!"], ["cmd"]), DynEvent(StrRef("!cmd")))
    ensures Matches(NewCommand(["!"], ["cmd"]), DynEvent(StrRef("!cmd@bot")))
  {
    assert ["!"][0] + ["cmd"][0] == "!cmd";
    assert "!cmd@bot"[..4] == "!cmd";
  }

  /** The unit test of command.rs, for `new(["!"], ["cmd"])`: the texts it
      rejects, among them a `"/"` command. */
  lemma NewCommandTestMisses()
    ensures !Matches(NewCommand(["!"], ["cmd"]), DynEvent(StrRef("help")))
    ensures !Matches(NewCommand(["!"], ["cmd"]), DynEvent(StrRef("!not cmd")))
    ensures !Matches(NewCommand(["!"], ["cmd"]), DynEvent(StrRef("/cmd arg1 arg2")))
  {
    assert ["!"][0] + ["cmd"][0] == "!cmd";
    assert "!not cmd"[1] != "!cmd"[1];
    assert "/cmd arg1 arg2"[0] != "!cmd"[0];
    assert "help"[0] != "!cmd"[0];
  }

  // ------------------------------------------------------- router/error.rs

  /** `ErrorRouter::<E>::default()`: the router carries only its kind. */
  function DefaultErrorRouter(kind: string): (r: Router)
    ensures forall e: DynEvent :: Matches(r, e) <==> TypeOf(e.content) == ErrorTag(kind)
  {
    ErrorKind(kind)
  }

  /** `ErrorRouter::<E>::new()`, which is `default()`. */
  function NewErrorRouter(kind: string): (r: Router)
    ensures r == DefaultErrorRouter(kind)
  {
    DefaultErrorRouter(kind)
  }

  /** `ErrorRouter<E>` matches exactly the error values of kind `E`, whatever
      their message. */
  lemma ErrorKindIff(kind: string, e: DynEvent)
    ensures Matches(ErrorKind(kind), e) <==> e.content.ErrorValue? && e.content.kind == kind
  {
  }

  /** Routers for two different error kinds never match the same event. */
  lemma ErrorKindsExclusive(k1: string, k2: string, e: DynEvent)
    requires k1 != k2
    ensures !(Matches(ErrorKind(k1), e) && Matches(ErrorKind(k2), e))
  {
  }
}
