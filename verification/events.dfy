/** The event handler of main.py (`EventHandler`): which filesystem events
    launch the configured action, and the argument vector each launch gets. */
module Events {
  import opened Wrappers

  /** The event types the polling observer reports. */
  datatype EventKind = Created | Modified | Deleted | Moved | Closed | Opened

  /** One filesystem event: its type, whether it concerns a directory, and
      the path it is about. */
  datatype Event = Event(kind: EventKind, isDirectory: bool, srcPath: string)

  /** An installed handler: the action to run and the flattened extra
      arguments built once for its section. */
  datatype Handler = Handler(action: string, arguments: seq<string>)

  /** The guard of `handle`: created or modified, and not a directory. */
  predicate Triggers(e: Event) {
    (e.kind == Created || e.kind == Modified) && !e.isDirectory
  }

  /** The argument vector handed to the process launcher for one event:
      the action, the handler's arguments unchanged, then the path. */
  function Invocation(h: Handler, path: string): (argv: seq<string>)
    ensures |argv| == |h.arguments| + 2
    ensures argv[0] == h.action && argv[|argv| - 1] == path
    ensures argv[1..|argv| - 1] == h.arguments
  {
    [h.action] + h.arguments + [path]
  }

  /** The inverse of `Invocation`: splits an argument vector into the
      program, the middle arguments and the final path. */
  function SplitInvocation(argv: seq<string>): (r: Option<(string, seq<string>, string)>)
    ensures r.Some? <==> |argv| >= 2
  {
    if |argv| < 2 then None
    else Some((argv[0], argv[1..|argv| - 1], argv[|argv| - 1]))
  }

  /** Splitting an invocation recovers the handler and the path, and every
      vector of at least two elements is the invocation of what it splits into. */
  lemma SplitInvocationRoundTrip(h: Handler, path: string, argv: seq<string>)
    ensures SplitInvocation(Invocation(h, path)) == Some((h.action, h.arguments, path))
    ensures |argv| >= 2 ==>
              var (action, arguments, last) := SplitInvocation(argv).value;
              Invocation(Handler(action, arguments), last) == argv
  {
  }

  /** `handle` with the triggering path made explicit: `Some(argv)` when
      the event launches the action, `None` when it is ignored.
      The source at main.py:24 passes the module-level `path` (the last
      glob match of the section loop) instead of `event.src_path`; that
      literal behaviour is `HandleAsWritten` below, and this corrected
      form is the one the rest of the model uses. */
  function Handle(h: Handler, e: Event): (r: Option<seq<string>>)
    ensures r.Some? <==> (e.kind in {Created, Modified} && !e.isDirectory)
    ensures r.Some? ==> r.value == Invocation(h, e.srcPath)
  {
    if Triggers(e) then Some(Invocation(h, e.srcPath)) else None
  }

  /** The observer's callback dispatch: `on_created` and `on_modified`
      call `handle`; every other callback keeps the library's empty
      default. The kind test inside `handle` therefore never disagrees
      with the callback it was reached through. */
  function Notify(h: Handler, e: Event): (r: Option<seq<string>>)
    ensures r.Some? <==> Triggers(e)
    ensures r == Handle(h, e)
  {
    match e.kind
    case Created => Handle(h, e)
    case Modified => Handle(h, e)
    case _ => None
  }

  /** Deleted, moved, opened and closed events and every directory event
      are ignored, whichever route they take. */
  lemma IgnoredEvents(h: Handler, e: Event)
    ensures e.kind in {Deleted, Moved, Closed, Opened} ==> Notify(h, e) == None && Handle(h, e) == None
    ensures e.isDirectory ==> Notify(h, e) == None && Handle(h, e) == None
  {
  }

  /** `handle` with the path it actually passes: the launched vector ends
      with the last path the section's glob matched (the module-level loop
      variable), whatever file the event is about. A handler is only
      installed when the glob matched at least one path. The source also
      reads the module-level `action` and `arguments` rather than the
      handler's fields; this model uses the handler's fields, which hold
      the same values because the section loop leaves a section only after
      that section's dispatch thread has died, when no handler of it runs
      any more. */
  function HandleAsWritten(h: Handler, e: Event, matches: seq<string>): (r: Option<seq<string>>)
    requires |matches| > 0
    ensures r.Some? <==> Triggers(e)
    ensures r.Some? ==> |r.value| == |h.arguments| + 2 && r.value[0] == h.action
    ensures r.Some? ==> r.value[1..|r.value| - 1] == h.arguments
    ensures r.Some? ==> r.value[|r.value| - 1] == matches[|matches| - 1]
  {
    if Triggers(e) then Some([h.action] + h.arguments + [matches[|matches| - 1]]) else None
  }

  /** The literal handler agrees with the intended one on a triggering
      event exactly when the event is about the last glob match. */
  lemma AsWrittenAgreesOnlyOnLastMatch(h: Handler, e: Event, matches: seq<string>)
    requires |matches| > 0 && Triggers(e)
    ensures HandleAsWritten(h, e, matches) == Handle(h, e) <==> e.srcPath == matches[|matches| - 1]
  {
  }

  /** A concrete witness: with a glob matching `/w/a.csv` and `/w/b.csv`,
      creating `/w/a.csv` launches the action on `/w/b.csv`. */
  lemma AsWrittenReportsWrongFile()
    ensures var h := Handler("/bin/echo", []);
      var e := Event(Created, false, "/w/a.csv");
      && HandleAsWritten(h, e, ["/w/a.csv", "/w/b.csv"]) == Some(["/bin/echo", "/w/b.csv"])
      && Handle(h, e) == Some(["/bin/echo", "/w/a.csv"])
  {
    var h := Handler("/bin/echo", []);
    assert [h.action] + h.arguments + ["/w/b.csv"] == ["/bin/echo", "/w/b.csv"];
    assert Invocation(h, "/w/a.csv") == ["/bin/echo", "/w/a.csv"];
  }

  /** The paths of the events that launch the action, in arrival order. */
  function TriggeringPaths(events: seq<Event>): (paths: seq<string>)
    ensures |paths| <= |events|
    ensures forall p :: p in paths <==> exists i :: 0 <= i < |events| && Triggers(events[i]) && events[i].srcPath == p
  {
    if events == [] then []
    else
      var rest := TriggeringPaths(events[1..]);
      assert forall i :: 1 <= i < |events| ==> events[i] == events[1..][i - 1];
      if Triggers(events[0]) then [events[0].srcPath] + rest else rest
  }

  /** Filtering distributes over consecutive batches of events. */
  lemma {:induction false} TriggeringPathsAppend(a: seq<Event>, b: seq<Event>)
    ensures TriggeringPaths(a + b) == TriggeringPaths(a) + TriggeringPaths(b)
  {
    if a != [] {
      assert (a + b)[1..] == a[1..] + b;
      TriggeringPathsAppend(a[1..], b);
    } else {
      assert a + b == b;
    }
  }

  /** An ignored event can be removed from a stream without changing which
      files the action is launched on. */
  lemma IgnoredEventIsInvisible(a: seq<Event>, e: Event, b: seq<Event>)
    requires !Triggers(e)
    ensures TriggeringPaths(a + [e] + b) == TriggeringPaths(a + b)
  {
    TriggeringPathsAppend(a + [e], b);
    TriggeringPathsAppend(a, [e]);
    TriggeringPathsAppend(a, b);
    assert TriggeringPaths([e]) == [] by {
      assert [e][1..] == [];
    }
  }

  /** The handler fed a stream of events, one callback at a time, with the
      corrected handler (`Handle`): one launch per triggering event, in
      arrival order, each on that event's own path. Every launch is assumed
      to start; in the source a launch that fails to start raises and ends
      the observer's dispatch thread, so no later event is handled. */
  method Dispatch(h: Handler, events: seq<Event>) returns (launches: seq<seq<string>>)
    ensures |launches| == |TriggeringPaths(events)|
    ensures forall i :: 0 <= i < |launches| ==> launches[i] == Invocation(h, TriggeringPaths(events)[i])
  {
    launches := [];
    var n := 0;
    while n < |events|
      invariant n <= |events|
      invariant |launches| == |TriggeringPaths(events[..n])|
      invariant forall i :: 0 <= i < |launches| ==> launches[i] == Invocation(h, TriggeringPaths(events[..n])[i])
    {
      TriggeringPathsAppend(events[..n], [events[n]]);
      assert events[..n + 1] == events[..n] + [events[n]];
      assert [events[n]][1..] == [];
      var r := Notify(h, events[n]);
      if r.Some? {
        launches := launches + [r.value];
      }
      n := n + 1;
    }
    assert events[..n] == events;
  }
}
