/** Registered steps and the order in which a run executes them
    (the Step record and reorderStepsIfNeeded of pipeline/pipeline.go). */
module Steps {
  import opened Errors
  import opened Context

  /** A named callable: the declared types of its parameters and what it returns for a
      given argument list. */
  datatype Step = Step(name: string, params: seq<Tag>, invoke: seq<Value> -> seq<Value>)

  /** The last registered step called `name`: a name-keyed map filled in registration
      order keeps only that one. */
  function LastNamed(steps: seq<Step>, name: string): Option<Step> {
    if steps == [] then None
    else if steps[|steps| - 1].name == name then Some(steps[|steps| - 1])
    else LastNamed(steps[..|steps| - 1], name)
  }

  /** LastNamed finds a step exactly when one has the name, and the one it finds is
      registered after every other step of that name. */
  lemma {:induction false} LastNamedIsLast(steps: seq<Step>, name: string)
    ensures LastNamed(steps, name).None? <==> forall k :: 0 <= k < |steps| ==> steps[k].name != name
    ensures LastNamed(steps, name).Some? ==> (LastNamed(steps, name).value.name == name &&
      exists k :: 0 <= k < |steps| && steps[k] == LastNamed(steps, name).value &&
                  forall j :: k < j < |steps| ==> steps[j].name != name)
  {
    if steps != [] {
      var init := steps[..|steps| - 1];
      LastNamedIsLast(init, name);
      if steps[|steps| - 1].name != name && LastNamed(init, name).Some? {
        var k :| 0 <= k < |init| && init[k] == LastNamed(init, name).value &&
                 forall j :: k < j < |init| ==> init[j].name != name;
        assert steps[k] == init[k];
      }
    }
  }

  /** The steps the configured order names, in its order: one entry per occurrence of a
      known name, unknown names contributing nothing. */
  function Listed(steps: seq<Step>, order: seq<string>): seq<Step> {
    if order == [] then []
    else
      Listed(steps, order[..|order| - 1]) +
      match LastNamed(steps, order[|order| - 1])
      case None => []
      case Some(s) => [s]
  }

  /** The configured names that name no registered step; each one draws a warning. */
  function Skipped(steps: seq<Step>, order: seq<string>): seq<string> {
    if order == [] then []
    else
      Skipped(steps, order[..|order| - 1]) +
      (if LastNamed(steps, order[|order| - 1]).None? then [order[|order| - 1]] else [])
  }

  /** The registered steps whose name the configured order does not mention, in
      registration order. */
  function Unlisted(steps: seq<Step>, order: seq<string>): seq<Step> {
    if steps == [] then []
    else
      Unlisted(steps[..|steps| - 1], order) +
      (if steps[|steps| - 1].name in order then [] else [steps[|steps| - 1]])
  }

  /** The execution sequence for a configured order: unchanged for an empty order,
      otherwise the listed steps followed by the unlisted ones. */
  function Reordered(steps: seq<Step>, order: seq<string>): seq<Step> {
    if |order| == 0 then steps else Listed(steps, order) + Unlisted(steps, order)
  }

  function Names(steps: seq<Step>): (r: seq<string>)
    ensures |r| == |steps| && forall k :: 0 <= k < |steps| ==> r[k] == steps[k].name
  {
    seq(|steps|, k requires 0 <= k < |steps| => steps[k].name)
  }

  /** Every configured name is either placed in the listed prefix or skipped with a warning. */
  lemma {:induction false} ListedOrSkipped(steps: seq<Step>, order: seq<string>)
    ensures |Listed(steps, order)| + |Skipped(steps, order)| == |order|
    ensures forall n :: n in Skipped(steps, order) <==> n in order && LastNamed(steps, n).None?
  {
    if order != [] {
      var init, last := order[..|order| - 1], order[|order| - 1];
      ListedOrSkipped(steps, init);
      assert order == init + [last];
      forall n ensures n in order <==> n in init || n == last {
        if n in order {
          var k :| 0 <= k < |order| && order[k] == n;
          if k < |init| { assert init[k] == n; }
        }
      }
    }
  }

  /** The listed prefix holds, for each known configured name and in the configured order,
      the last registered step of that name. */
  lemma {:induction false} ListedAreLast(steps: seq<Step>, order: seq<string>)
    ensures forall k :: 0 <= k < |Listed(steps, order)| ==>
      Listed(steps, order)[k].name in order &&
      LastNamed(steps, Listed(steps, order)[k].name) == Some(Listed(steps, order)[k])
  {
    if order != [] {
      ListedAreLast(steps, order[..|order| - 1]);
      LastNamedIsLast(steps, order[|order| - 1]);
      forall k | 0 <= k < |Listed(steps, order)|
        ensures Listed(steps, order)[k].name in order
      {
        if k < |Listed(steps, order[..|order| - 1])| {
          assert Listed(steps, order)[k] == Listed(steps, order[..|order| - 1])[k];
          assert forall n :: n in order[..|order| - 1] ==> n in order;
        }
      }
    }
  }

  /** A known configured name does get its step into the listed prefix. */
  lemma {:induction false} ListedHas(steps: seq<Step>, order: seq<string>, name: string)
    requires name in order && LastNamed(steps, name).Some?
    ensures exists k :: 0 <= k < |Listed(steps, order)| && Listed(steps, order)[k] == LastNamed(steps, name).value
  {
    var init := order[..|order| - 1];
    if order[|order| - 1] == name {
      var k := |Listed(steps, init)|;
      assert Listed(steps, order)[k] == LastNamed(steps, name).value;
    } else {
      assert name in init by { var i :| 0 <= i < |order| && order[i] == name; assert init[i] == name; }
      ListedHas(steps, init, name);
      var k :| 0 <= k < |Listed(steps, init)| && Listed(steps, init)[k] == LastNamed(steps, name).value;
      assert Listed(steps, order)[k] == Listed(steps, init)[k];
    }
  }

  lemma NamesAppend(a: seq<Step>, b: seq<Step>)
    ensures Names(a + b) == Names(a) + Names(b)
  {
  }

  /** The listed prefix names exactly the configured names that are registered. */
  lemma {:induction false} ListedNames(steps: seq<Step>, order: seq<string>)
    ensures forall n :: n in Names(Listed(steps, order)) <==> n in order && n in Names(steps)
  {
    if order != [] {
      var init, last := order[..|order| - 1], order[|order| - 1];
      ListedNames(steps, init);
      LastNamedIsLast(steps, last);
      var tail := match LastNamed(steps, last) case None => [] case Some(s) => [s];
      NamesAppend(Listed(steps, init), tail);
      assert order == init + [last];
      forall n ensures n in Names(Listed(steps, order)) <==> n in order && n in Names(steps) {
        if n == last {
          if LastNamed(steps, last).Some? {
            var k :| 0 <= k < |steps| && steps[k] == LastNamed(steps, last).value;
            assert Names(steps)[k] == n;
            assert Names(tail) == [n];
          } else {
            assert n !in Names(steps);
          }
        }
      }
    }
  }

  /** The unlisted suffix names exactly the registered names the configured order omits. */
  lemma {:induction false} UnlistedNames(steps: seq<Step>, order: seq<string>)
    ensures forall n :: n in Names(Unlisted(steps, order)) <==> n !in order && n in Names(steps)
  {
    if steps != [] {
      var init, last := steps[..|steps| - 1], steps[|steps| - 1];
      UnlistedNames(init, order);
      NamesAppend(Unlisted(init, order), if last.name in order then [] else [last]);
      NamesAppend(init, [last]);
      assert steps == init + [last];
    }
  }

  /** Reordering neither loses nor invents a step name. */
  lemma ReorderedKeepsNames(steps: seq<Step>, order: seq<string>)
    ensures forall n :: n in Names(Reordered(steps, order)) <==> n in Names(steps)
  {
    if |order| > 0 {
      ListedNames(steps, order);
      UnlistedNames(steps, order);
      NamesAppend(Listed(steps, order), Unlisted(steps, order));
    }
  }

  /** The step LastNamed finds carries the name it was looked up by. */
  lemma {:induction false} LastNamedHasName(steps: seq<Step>, name: string)
    ensures LastNamed(steps, name).Some? ==> LastNamed(steps, name).value.name == name
  {
    if steps != [] && steps[|steps| - 1].name != name {
      LastNamedHasName(steps[..|steps| - 1], name);
    }
  }

  /** One more configured name adds at most its own last registered step to the listed prefix. */
  lemma ListedCountOneMore(steps: seq<Step>, order: seq<string>, s: Step)
    requires order != []
    ensures multiset(Listed(steps, order))[s]
         == multiset(Listed(steps, order[..|order| - 1]))[s]
            + (if LastNamed(steps, order[|order| - 1]) == Some(s) then 1 else 0)
  {
    var tail: seq<Step> := match LastNamed(steps, order[|order| - 1]) case None => [] case Some(x) => [x];
    assert Listed(steps, order) == Listed(steps, order[..|order| - 1]) + tail;
  }

  lemma OccurrencesOneMore(order: seq<string>, name: string)
    requires order != []
    ensures multiset(order)[name]
         == multiset(order[..|order| - 1])[name] + (if order[|order| - 1] == name then 1 else 0)
  {
    assert order == order[..|order| - 1] + [order[|order| - 1]];
  }

  /** Two names find the same step exactly when they are the same name. */
  lemma SameStepSameName(steps: seq<Step>, name: string, other: string)
    requires LastNamed(steps, name).Some?
    ensures LastNamed(steps, other) == LastNamed(steps, name) <==> other == name
  {
    LastNamedHasName(steps, name);
    LastNamedHasName(steps, other);
  }

  /** The last registered step of a name is placed once per occurrence of that name in the
      configured order, repetitions included. */
  lemma {:induction false} ListedOncePerOccurrence(steps: seq<Step>, order: seq<string>, name: string)
    requires LastNamed(steps, name).Some?
    ensures multiset(Listed(steps, order))[LastNamed(steps, name).value] == multiset(order)[name]
  {
    if order != [] {
      var init, last := order[..|order| - 1], order[|order| - 1];
      ListedOncePerOccurrence(steps, init, name);
      ListedCountOneMore(steps, order, LastNamed(steps, name).value);
      SameStepSameName(steps, name, last);
      OccurrencesOneMore(order, name);
    }
  }
}
