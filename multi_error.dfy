/** The aggregated error of the errors exercise. A `MultiError` holds a list of
    errors; `Append` adds errors to it, skipping nils and splicing in the list
    of any `*MultiError` it is given, so that a list built by `Append` is flat;
    `Error()` renders the list in a fixed layout. An error value is nil, a plain
    message (what `errors.New` returns) or a `*MultiError`, the latter taken
    as the list it holds when `Append` is called. A `*MultiError` argument that
    is the receiver itself is read again in each iteration of Go's loop, so it
    sees the errors appended by earlier arguments; that aliasing is not part of
    this model. */
module MultiErrors {
  import Decimal

  datatype ErrorValue = Nil | Message(text: string) | Multi(errs: seq<ErrorValue>)

  /** What `%v` prints for an error: its `Error()` text, `<nil>` for nil. */
  function Text(e: ErrorValue): string
  {
    match e
    case Nil => "<nil>"
    case Message(t) => t
    case Multi(es) => Layout(seq(|es|, k requires 0 <= k < |es| => Text(es[k])))
  }

  /** `Error()` of a `*MultiError` whose errors print as the given texts. */
  function Layout(texts: seq<string>): string
  {
    if |texts| == 0 then ""
    else if |texts| == 1 then texts[0]
    else Header(|texts|) + Items(texts) + "\n"
  }

  function Header(n: nat): string
  {
    Decimal.FormatInt(n) + " errors occured:\n"
  }

  /** One `"\t* <text>"` per error, in order, with no separator. */
  function Items(texts: seq<string>): string
  {
    if texts == [] then "" else "\t* " + texts[0] + Items(texts[1..])
  }

  function Texts(es: seq<ErrorValue>): (r: seq<string>)
    ensures |r| == |es|
    ensures forall k :: 0 <= k < |es| ==> r[k] == Text(es[k])
  {
    seq(|es|, k requires 0 <= k < |es| => Text(es[k]))
  }

  /** What `Error()` returns for a `MultiError` holding `errs`. */
  function Render(errs: seq<ErrorValue>): string
  {
    Text(Multi(errs))
  }

  lemma {:induction false} ItemsConcat(a: seq<string>, b: seq<string>)
    ensures Items(a + b) == Items(a) + Items(b)
  {
    if a == [] {
      assert a + b == b;
    } else {
      assert (a + b)[1..] == a[1..] + b;
      ItemsConcat(a[1..], b);
    }
  }

  /** The three shapes of `Error()`: empty, the sole message, or the count,
      each error on its own item, and a closing newline. */
  lemma RenderShapes(errs: seq<ErrorValue>)
    ensures |errs| == 0 ==> Render(errs) == ""
    ensures |errs| == 1 ==> Render(errs) == Text(errs[0])
    ensures |errs| >= 2 ==> Render(errs) == Header(|errs|) + Items(Texts(errs)) + "\n"
  {
    assert Texts(errs) == seq(|errs|, k requires 0 <= k < |errs| => Text(errs[k]));
  }

  predicate NoTab(t: string)
  {
    forall k :: 0 <= k < |t| ==> t[k] != '\t'
  }

  /** The text up to the next tab. */
  function UpToTab(s: string): (r: string)
    ensures |r| <= |s|
  {
    if s == [] || s[0] == '\t' then "" else [s[0]] + UpToTab(s[1..])
  }

  /** Reads the items back: each starts with `"\t* "` and runs to the next tab. */
  function ParseItems(s: string): seq<string>
    decreases |s|
  {
    if |s| < 3 || s[..3] != "\t* " then []
    else
      var t := UpToTab(s[3..]);
      [t] + ParseItems(s[3 + |t|..])
  }

  lemma {:induction false} UpToTabOf(t: string, rest: string)
    requires NoTab(t) && (rest == [] || rest[0] == '\t')
    ensures UpToTab(t + rest) == t
  {
    if t != [] {
      assert (t + rest)[1..] == t[1..] + rest;
      UpToTabOf(t[1..], rest);
    } else {
      assert t + rest == rest;
    }
  }

  /** The pieces of one item followed by the rest of the list. */
  lemma ItemSlices(t: string, rest: string)
    ensures ("\t* " + t + rest)[..3] == "\t* "
    ensures ("\t* " + t + rest)[3..] == t + rest
    ensures ("\t* " + t + rest)[3 + |t|..] == rest
  {
    var s := "\t* " + t + rest;
    assert s == "\t* " + (t + rest);
  }

  /** The item list is unambiguous when no message holds a tab: the texts
      can be read back from it, in order. */
  lemma {:induction false} ParseItemsOf(texts: seq<string>)
    requires forall k :: 0 <= k < |texts| ==> NoTab(texts[k])
    ensures ParseItems(Items(texts)) == texts
  {
    if texts != [] {
      var t := texts[0];
      var rest := Items(texts[1..]);
      var s := "\t* " + t + rest;
      assert Items(texts) == s;
      assert rest == [] || rest[0] == '\t';
      UpToTabOf(t, rest);
      ItemSlices(t, rest);
      ParseItemsOf(texts[1..]);
      assert texts == [t] + texts[1..];
    }
  }

  /** The errors an argument contributes to `Append`. */
  function Part(e: ErrorValue): seq<ErrorValue>
  {
    match e
    case Nil => []
    case Message(_) => [e]
    case Multi(es) => es
  }

  /** The errors `Append(args...)` adds, in argument order. */
  function Flatten(args: seq<ErrorValue>): seq<ErrorValue>
  {
    if args == [] then [] else Flatten(args[..|args| - 1]) + Part(args[|args| - 1])
  }

  /** A list as `Append` builds it: plain messages only. */
  predicate Flat(es: seq<ErrorValue>)
  {
    forall k :: 0 <= k < |es| ==> es[k].Message?
  }

  lemma {:induction false} FlattenConcat(a: seq<ErrorValue>, b: seq<ErrorValue>)
    ensures Flatten(a + b) == Flatten(a) + Flatten(b)
  {
    if b == [] {
      assert a + b == a;
    } else {
      var b', last := b[..|b| - 1], b[|b| - 1];
      assert (a + b)[..|a + b| - 1] == a + b';
      assert (a + b)[|a + b| - 1] == last;
      FlattenConcat(a, b');
      assert Flatten(a + b) == Flatten(a) + Flatten(b') + Part(last);
      assert Flatten(a) + Flatten(b') + Part(last) == Flatten(a) + (Flatten(b') + Part(last));
    }
  }

  /** Arguments whose `*MultiError`s are flat give a flat list: no nil and no
      nested `MultiError` ever reaches the list. */
  lemma {:induction false} FlattenFlat(args: seq<ErrorValue>)
    requires forall k :: 0 <= k < |args| ==> args[k].Multi? ==> Flat(args[k].errs)
    ensures Flat(Flatten(args))
  {
    if args != [] {
      FlattenFlat(args[..|args| - 1]);
    }
  }

  /** Plain messages pass through unchanged and in order. */
  lemma {:induction false} FlattenMessages(args: seq<ErrorValue>)
    requires Flat(args)
    ensures Flatten(args) == args
  {
    if args != [] {
      FlattenMessages(args[..|args| - 1]);
    }
  }

  /** Exactly the messages among the arguments, and those inside the
      `*MultiError` arguments, end up in the list. */
  lemma {:induction false} FlattenMembers(args: seq<ErrorValue>, x: ErrorValue)
    ensures x in Flatten(args) <==>
      (x.Message? && x in args) || exists k :: 0 <= k < |args| && args[k].Multi? && x in args[k].errs
  {
    if args != [] {
      var init, last := args[..|args| - 1], args[|args| - 1];
      FlattenMembers(init, x);
      assert args == init + [last];
      InSomeMultiSnoc(init, last, x);
      assert x in Flatten(args) <==> x in Flatten(init) || x in Part(last);
      assert x in Part(last) <==> (x.Message? && x == last) || (last.Multi? && x in last.errs);
    }
  }

  /** A `*MultiError` argument holding x is among the first ones or is the last. */
  lemma InSomeMultiSnoc(init: seq<ErrorValue>, last: ErrorValue, x: ErrorValue)
    ensures (exists k :: 0 <= k < |init + [last]| && (init + [last])[k].Multi? && x in (init + [last])[k].errs)
      <==> (exists k :: 0 <= k < |init| && init[k].Multi? && x in init[k].errs) || (last.Multi? && x in last.errs)
  {
    var args := init + [last];
    if exists k :: 0 <= k < |init| && init[k].Multi? && x in init[k].errs {
      var k :| 0 <= k < |init| && init[k].Multi? && x in init[k].errs;
      assert args[k] == init[k];
    }
    if last.Multi? && x in last.errs {
      assert args[|init|] == last;
    }
    if exists k :: 0 <= k < |args| && args[k].Multi? && x in args[k].errs {
      var k :| 0 <= k < |args| && args[k].Multi? && x in args[k].errs;
      if k < |init| {
        assert init[k] == args[k];
      }
    }
  }

  class MultiError {
    var errs: seq<ErrorValue>

    /** The zero `MultiError`: no errors. */
    constructor ()
      ensures errs == []
    {
      errs := [];
    }

    /** `Append` in place: existing errors first, then what each argument
        contributes, in argument order. */
    method Append(args: seq<ErrorValue>)
      modifies this
      ensures errs == old(errs) + Flatten(args)
    {
      for i := 0 to |args|
        invariant errs == old(errs) + Flatten(args[..i])
      {
        assert args[..i + 1][..i] == args[..i];
        var v := args[i];
        if v == Nil {
          continue;
        }
        if v.Multi? {
          errs := errs + v.errs;
        } else {
          errs := errs + [v];
        }
      }
      assert args[..|args|] == args;
    }

    method Unwrap() returns (r: seq<ErrorValue>)
      ensures r == errs
    {
      r := errs;
    }

    /** `Error()`: writes the header and one item per error into a builder. */
    method Error() returns (s: string)
      ensures s == Render(errs)
    {
      if |errs| == 0 {
        RenderShapes(errs);
        return "";
      } else if |errs| == 1 {
        RenderShapes(errs);
        return Text(errs[0]);
      }
      ghost var texts := Texts(errs);
      var sb := Header(|errs|);
      for i := 0 to |errs|
        invariant sb == Header(|errs|) + Items(texts[..i])
      {
        ItemsSnoc(texts, i);
        ghost var items := Items(texts[..i]);
        assert sb + "\t* " + texts[i] == Header(|errs|) + (items + "\t* " + texts[i]);
        sb := sb + "\t* " + Text(errs[i]);
      }
      assert texts[..|errs|] == texts;
      RenderShapes(errs);
      s := sb + "\n";
    }
  }

  /** One more item at the end of the list. */
  lemma ItemsSnoc(texts: seq<string>, i: nat)
    requires i < |texts|
    ensures Items(texts[..i + 1]) == Items(texts[..i]) + "\t* " + texts[i]
  {
    ItemsConcat(texts[..i], [texts[i]]);
    assert texts[..i + 1] == texts[..i] + [texts[i]];
    assert Items([texts[i]]) == "\t* " + texts[i] + Items([]);
  }

  /** The package-level `Append(err, errs...)`: a fresh `MultiError` holding
      what `err` and then each of `errs` contribute. */
  method Append(err: ErrorValue, errs: seq<ErrorValue>) returns (res: MultiError)
    ensures fresh(res)
    ensures res.errs == Flatten([err] + errs)
  {
    res := new MultiError();
    res.Append([err]);
    res.Append(errs);
    FlattenConcat([err], errs);
  }

  /** Appending one message after any error value: that value's part, then the message. */
  lemma AppendOne(first: ErrorValue, e: ErrorValue)
    requires e.Message?
    ensures Flatten([first] + [e]) == Part(first) + [e]
  {
    var args := [first] + [e];
    assert args[..1] == [first];
    assert [first][..0] == [];
    assert Flatten([first]) == [] + Part(first);
  }

  /** Two messages render as the count line and one item each. */
  lemma TwoMessagesText(a: string, b: string)
    ensures Render([Message(a), Message(b)]) == "2 errors occured:\n" + "\t* " + a + "\t* " + b + "\n"
  {
    var es := [Message(a), Message(b)];
    RenderShapes(es);
    assert Texts(es) == [a, b];
    assert Items([a, b]) == "\t* " + a + "\t* " + b by {
      assert [a, b][1..] == [b];
      assert [b][1..] == [];
      assert Items([b]) == "\t* " + b + "";
    }
    assert Decimal.FormatInt(2) == "2";
    assert Header(2) == "2 errors occured:\n";
  }

  /** The message of the test's two-error value. */
  lemma TwoErrorsMessage()
    ensures Render([Message("error 1"), Message("error 2")])
      == "2 errors occured:\n\t* error 1\t* error 2\n"
  {
    TwoMessagesText("error 1", "error 2");
    var head := "2 errors occured:\n\t* error 1";
    assert "2 errors occured:\n" + "\t* " + "error 1" == head;
    var tail := "\t* error 2\n";
    assert "\t* " + "error 2" + "\n" == tail;
    assert head + tail == "2 errors occured:\n\t* error 1\t* error 2\n";
  }

  /** The lists the test's three package-level appends build. */
  lemma ScenarioLists(e1: ErrorValue, e2: ErrorValue, e3: ErrorValue)
    requires e1.Message? && e2.Message? && e3.Message?
    ensures Flatten([Nil] + [e1]) == [e1]
    ensures Flatten([Multi([e1])] + [e2]) == [e1, e2]
    ensures Flatten([Multi([e1, e2])] + [e3]) == [e1, e2, e3]
  {
    AppendToNil(e1);
    AppendToMulti([e1], e2);
    assert [e1] + [e2] == [e1, e2];
    AppendToMulti([e1, e2], e3);
    assert [e1, e2] + [e3] == [e1, e2, e3];
  }

  lemma AppendToNil(e: ErrorValue)
    requires e.Message?
    ensures Flatten([Nil] + [e]) == [e]
  {
    AppendOne(Nil, e);
    assert Part(Nil) + [e] == [e];
  }

  lemma AppendToMulti(es: seq<ErrorValue>, e: ErrorValue)
    requires e.Message?
    ensures Flatten([Multi(es)] + [e]) == es + [e]
  {
    AppendOne(Multi(es), e);
  }

  /** The test's run: two appends onto a nil error render as a two-item list,
      and a third appended error is among the result's errors. */
  method AppendScenario() returns (message: string, errs: seq<ErrorValue>)
    ensures message == "2 errors occured:\n\t* error 1\t* error 2\n"
    ensures Message("error 3") in errs
    ensures errs == [Message("error 1"), Message("error 2"), Message("error 3")]
  {
    var e1 := Message("error 1");
    var e2 := Message("error 2");
    var e3 := Message("error 3");
    ScenarioLists(e1, e2, e3);
    var m1 := Append(Nil, [e1]);
    var m2 := Append(Multi(m1.errs), [e2]);
    message := m2.Error();
    TwoErrorsMessage();
    var m3 := Append(Multi(m2.errs), [e3]);
    errs := m3.Unwrap();
  }
}
