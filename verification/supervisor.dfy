/** The section loop of main.py: every section is validated in turn, and
    an accepted one gets a handler and a started observer. The observer
    itself (polling, threads) is outside the model; what is modelled is
    which sections end up watched. The loop is stated for any per-section
    check; `Sections.Activate` is the one main.py performs. */
module Supervisor {
  import opened Wrappers
  import opened ArgumentBuilder
  import opened Sections
  import Events

  /** A section the loop skipped, with the required options it lacked. */
  datatype Skip = Skip(section: string, missing: set<string>)

  /** The validation applied to each section. */
  type Check = Section -> Result<Profile, set<string>>

  /** What the literal loop leaves behind: the skipped sections, and the
      accepted section whose observer it started and then joins. */
  datatype Outcome = Outcome(skipped: seq<Skip>, watching: Option<Profile>)

  /** What the loop would leave behind if every accepted section were
      watched at once. */
  datatype Activation = Activation(skipped: seq<Skip>, watching: seq<Profile>)

  /** The loop exactly as written, while every launch starts: no one stops
      the observer, so `observer.join()` does not return and the loop stays
      at the first accepted section; only the sections before it are
      examined and skipped. (A launch that fails to start raises inside the
      observer's dispatch thread, ending it and so the `join`; that exit is
      outside the model.) */
  function RunAsWritten(check: Check, sections: seq<Section>): (o: Outcome)
    ensures |o.skipped| <= |sections|
    ensures forall j :: 0 <= j < |o.skipped| ==>
              check(sections[j]).Failure? && o.skipped[j] == Skip(sections[j].name, check(sections[j]).error)
    ensures o.watching.None? <==> |o.skipped| == |sections|
    ensures o.watching.Some? ==> check(sections[|o.skipped|]) == Success(o.watching.value)
  {
    if sections == [] then Outcome([], None)
    else
      match check(sections[0])
      case Success(p) => Outcome([], Some(p))
      case Failure(missing) =>
        var rest := RunAsWritten(check, sections[1..]);
        assert forall j :: 1 <= j < |sections| ==> sections[j] == sections[1..][j - 1];
        Outcome([Skip(sections[0].name, missing)] + rest.skipped, rest.watching)
  }

  /** The loop as evidently intended: every accepted section is
      watched, every other one is skipped, in file order. */
  function ActivateAll(check: Check, sections: seq<Section>): (a: Activation)
    ensures |a.skipped| + |a.watching| == |sections|
    ensures forall p :: p in a.watching ==> exists i :: 0 <= i < |sections| && check(sections[i]) == Success(p)
    ensures forall sk :: sk in a.skipped ==>
              exists i :: 0 <= i < |sections| && check(sections[i]).Failure? &&
                          sk == Skip(sections[i].name, check(sections[i]).error)
  {
    if sections == [] then Activation([], [])
    else
      var rest := ActivateAll(check, sections[1..]);
      assert forall j :: 1 <= j < |sections| ==> sections[j] == sections[1..][j - 1];
      match check(sections[0])
      case Success(p) => Activation(rest.skipped, [p] + rest.watching)
      case Failure(missing) => Activation([Skip(sections[0].name, missing)] + rest.skipped, rest.watching)
  }

  /** Every accepted section is watched and every other one is skipped
      with its missing options reported. */
  lemma {:induction false} ActivateAllComplete(check: Check, sections: seq<Section>)
    ensures forall i :: 0 <= i < |sections| && check(sections[i]).Success? ==>
              check(sections[i]).value in ActivateAll(check, sections).watching
    ensures forall i :: 0 <= i < |sections| && check(sections[i]).Failure? ==>
              Skip(sections[i].name, check(sections[i]).error) in ActivateAll(check, sections).skipped
  {
    if sections != [] {
      ActivateAllComplete(check, sections[1..]);
      assert forall j :: 1 <= j < |sections| ==> sections[j] == sections[1..][j - 1];
    }
  }

  /** Accepting sections one batch after another is the same as accepting
      them all at once. */
  lemma {:induction false} ActivateAllAppend(check: Check, a: seq<Section>, b: seq<Section>)
    ensures ActivateAll(check, a + b).watching == ActivateAll(check, a).watching + ActivateAll(check, b).watching
    ensures ActivateAll(check, a + b).skipped == ActivateAll(check, a).skipped + ActivateAll(check, b).skipped
  {
    if a == [] {
      assert a + b == b;
    } else {
      assert (a + b)[0] == a[0];
      assert (a + b)[1..] == a[1..] + b;
      ActivateAllAppend(check, a[1..], b);
    }
  }

  /** A section lacking a required option does not change which other
      sections are watched. */
  lemma SkippedSectionIsIsolated(check: Check, a: seq<Section>, bad: Section, b: seq<Section>)
    requires check(bad).Failure?
    ensures ActivateAll(check, a + [bad] + b).watching == ActivateAll(check, a + b).watching
  {
    ActivateAllAppend(check, a, [bad]);
    ActivateAllAppend(check, a + [bad], b);
    ActivateAllAppend(check, a, b);
    assert [bad][1..] == [];
  }

  /** The literal loop watches only the first section the intended loop
      watches, after skipping exactly the sections before it. */
  lemma {:induction false} AsWrittenWatchesOnlyTheFirst(check: Check, sections: seq<Section>)
    ensures var all := ActivateAll(check, sections);
      && RunAsWritten(check, sections).watching == (if all.watching == [] then None else Some(all.watching[0]))
      && RunAsWritten(check, sections).skipped <= all.skipped
  {
    if sections != [] {
      assert forall j :: 1 <= j < |sections| ==> sections[j] == sections[1..][j - 1];
      AsWrittenWatchesOnlyTheFirst(check, sections[1..]);
    }
  }

  /** A complete example section: `label` is its one extra option, and its
      `recursive` option reads "false". */
  function Example(name: string): Section {
    Section(name, [
      Entry("glob", "/tmp/watch/*.csv"),
      Entry("recursive", "false"),
      Entry("action", "/bin/echo"),
      Entry("duration", "0.1"),
      Entry("label", "x")])
  }

  /** The example section's only extra option is `label`. */
  lemma ExampleExtras(name: string)
    ensures ExtraEntries(Example(name).entries) == [Entry("label", "x")]
  {
  }

  /** The example section is accepted with `recursive` set although it
      reads "false", and a file created in the watched directory launches
      `/bin/echo --label x <that file>`. */
  lemma ExampleSectionLaunch()
    ensures Activate(Example("reports")).Success?
    ensures Activate(Example("reports")).value.recursive
    ensures Events.Handle(HandlerOf(Activate(Example("reports")).value),
                          Events.Event(Events.Created, false, "/tmp/watch/report.csv"))
            == Some(["/bin/echo", "--label", "x", "/tmp/watch/report.csv"])
  {
    ExampleAccepted("reports");
    ExampleExtras("reports");
    ExampleLookups("reports");
    ExampleHandlerLaunch(Activate(Example("reports")).value);
  }

  /** A profile running `/bin/echo` with the one extra `label = x`
      launches `/bin/echo --label x <file>` for a created file. */
  lemma ExampleHandlerLaunch(p: Profile)
    requires p.action == "/bin/echo" && p.extras == [Entry("label", "x")]
    ensures Events.Handle(HandlerOf(p), Events.Event(Events.Created, false, "/tmp/watch/report.csv"))
            == Some(["/bin/echo", "--label", "x", "/tmp/watch/report.csv"])
  {
    assert p.extras[1..] == [];
    assert Flag("label") == "--label";
    assert ToArguments(p.extras) == [Flag("label"), "x"] + ToArguments([]);
    var argv := Events.Invocation(HandlerOf(p), "/tmp/watch/report.csv");
    assert argv == ["/bin/echo"] + ["--label", "x"] + ["/tmp/watch/report.csv"];
    assert argv == ["/bin/echo", "--label", "x", "/tmp/watch/report.csv"];
    assert Events.Triggers(Events.Event(Events.Created, false, "/tmp/watch/report.csv"));
  }

  /** The example section's action and recursion settings. */
  lemma ExampleLookups(name: string)
    ensures Lookup(Example(name).entries, "recursive") == Some("false")
    ensures Lookup(Example(name).entries, "action") == Some("/bin/echo")
  {
  }

  /** Every example section holds the four required options. */
  lemma ExampleAccepted(name: string)
    ensures Activate(Example(name)).Success?
  {
    var s := Example(name);
    assert s.entries[0].key == "glob" && s.entries[1].key == "recursive";
    assert s.entries[2].key == "action" && s.entries[3].key == "duration";
    assert forall k :: k in Required ==> k in KeySet(s.entries);
  }

  /** With two accepted sections, the literal loop watches only the
      first, while the intended loop watches both. */
  lemma AsWrittenStopsAtFirstAccepted(check: Check, a: Section, b: Section)
    requires check(a).Success? && check(b).Success?
    ensures RunAsWritten(check, [a, b]).watching == Some(check(a).value)
    ensures ActivateAll(check, [a, b]).watching == [check(a).value, check(b).value]
  {
  }

  /** Two complete example sections: while every launch starts, the
      literal loop never reaches the second one. */
  lemma AsWrittenNeverReachesSecondSection()
    ensures RunAsWritten(Activate, [Example("first"), Example("second")]).watching.Some?
    ensures RunAsWritten(Activate, [Example("first"), Example("second")]).watching.value.name == "first"
    ensures |ActivateAll(Activate, [Example("first"), Example("second")]).watching| == 2
  {
    ExampleAccepted("first");
    ExampleAccepted("second");
    AsWrittenStopsAtFirstAccepted(Activate, Example("first"), Example("second"));
  }
}
