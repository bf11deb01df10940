/** Validation of one configuration section and its split into the
    required settings and the extra arguments (main.py, section loop). */
module Sections {
  import opened Wrappers
  import opened ArgumentBuilder
  import Events

  /** The option names every section must define. */
  const Required: set<string> := {"glob", "recursive", "action", "duration"}

  /** One parsed configuration section: its name and its options in file
      order. */
  datatype Section = Section(name: string, entries: seq<Entry>)

  /** The configuration parser never yields the same option twice. */
  predicate WellFormed(s: Section) {
    DistinctKeys(s.entries)
  }

  /** The option names a sequence of entries defines. */
  function KeySet(entries: seq<Entry>): (ks: set<string>)
    ensures forall k :: k in ks <==> exists e :: e in entries && e.key == k
  {
    set e | e in entries :: e.key
  }

  /** Dropping the first option keeps the names distinct, and the first
      name does not recur. */
  lemma DistinctTail(entries: seq<Entry>)
    requires |entries| > 0
    ensures DistinctKeys(entries) ==> DistinctKeys(entries[1..])
    ensures DistinctKeys(entries) ==> forall e :: e in entries[1..] ==> e.key != entries[0].key
  {
  }

  /** Prepending an option with a fresh name keeps the names distinct. */
  lemma DistinctCons(x: Entry, rest: seq<Entry>)
    ensures DistinctKeys(rest) && (forall e :: e in rest ==> e.key != x.key) ==> DistinctKeys([x] + rest)
  {
  }

  /** With distinct names, there are exactly as many names as options. */
  lemma {:induction false} DistinctKeysCount(entries: seq<Entry>)
    requires DistinctKeys(entries)
    ensures |KeySet(entries)| == |entries|
  {
    if entries != [] {
      DistinctTail(entries);
      DistinctKeysCount(entries[1..]);
      assert forall e :: e in entries <==> e == entries[0] || e in entries[1..];
      assert KeySet(entries) == {entries[0].key} + KeySet(entries[1..]);
      assert entries[0].key !in KeySet(entries[1..]);
    }
  }

  /** `ini[section][key]`: the value of the first entry with that name. */
  function Lookup(entries: seq<Entry>, key: string): (r: Option<string>)
    ensures r.Some? <==> key in KeySet(entries)
    ensures r.Some? ==> Entry(key, r.value) in entries
    ensures DistinctKeys(entries) ==> forall e :: e in entries && e.key == key ==> r == Some(e.value)
  {
    if entries == [] then None
    else
      assert forall e :: e in entries <==> e == entries[0] || e in entries[1..];
      DistinctTail(entries);
      if entries[0].key == key then Some(entries[0].value)
      else Lookup(entries[1..], key)
  }

  /** The required option names the section does not define. */
  function Missing(entries: seq<Entry>): (m: set<string>)
    ensures m <= Required
    ensures forall k :: k in m <==> k in Required && !(exists i :: 0 <= i < |entries| && entries[i].key == k)
  {
    set k | k in Required && k !in KeySet(entries)
  }

  /** Python's `bool` applied to a string: true for every non-empty string. */
  function Truthy(s: string): (b: bool)
    ensures b <==> s != ""
  {
    |s| > 0
  }

  /** The settings of one accepted section. `pattern` and `duration` are
      kept as raw text: expanding the pattern and parsing the duration are
      outside the model. */
  datatype Profile = Profile(
    name: string,
    pattern: string,
    recursive: bool,
    action: string,
    duration: string,
    extras: seq<Entry>)

  /** `extras` is a faithful arrangement of a section's non-required
      options: each defined once, each with the section's own value, and
      exactly the section's option names minus the required ones. The
      source builds it from a set difference, so any order is possible. */
  predicate IsExtrasOf(extras: seq<Entry>, entries: seq<Entry>) {
    && DistinctKeys(extras)
    && KeySet(extras) == KeySet(entries) - Required
    && forall e :: e in extras ==> e in entries
  }

  /** The non-required options of a section, in file order. */
  function ExtraEntries(entries: seq<Entry>): (extras: seq<Entry>)
    ensures forall e :: e in extras <==> e in entries && e.key !in Required
    ensures KeySet(extras) == KeySet(entries) - Required
    ensures DistinctKeys(entries) ==> IsExtrasOf(extras, entries)
  {
    if entries == [] then []
    else
      var rest := ExtraEntries(entries[1..]);
      assert forall e :: e in entries <==> e == entries[0] || e in entries[1..];
      DistinctTail(entries);
      if entries[0].key in Required then rest
      else
        DistinctCons(entries[0], rest);
        [entries[0]] + rest
  }

  /** One iteration of the section loop: a section lacking any required
      option is skipped, reporting the missing names; otherwise its
      settings are read and every other option becomes an extra argument. */
  function Activate(s: Section): (r: Result<Profile, set<string>>)
    ensures r.Failure? <==> exists k :: k in Required && k !in KeySet(s.entries)
    ensures r.Failure? ==> r.error != {} && forall k :: k in r.error <==> k in Required && k !in KeySet(s.entries)
    ensures r.Success? ==>
              && r.value.name == s.name
              && Lookup(s.entries, "glob") == Some(r.value.pattern)
              && Lookup(s.entries, "action") == Some(r.value.action)
              && Lookup(s.entries, "duration") == Some(r.value.duration)
              && (r.value.recursive <==> Lookup(s.entries, "recursive") != Some(""))
  {
    var missing := Missing(s.entries);
    if missing != {} then Failure(missing)
    else
      assert forall k :: k in Required ==> k in KeySet(s.entries) by {
        forall k | k in Required
          ensures k in KeySet(s.entries)
        {
          assert k !in missing;
        }
      }
      Success(Profile(
        s.name,
        Lookup(s.entries, "glob").value,
        Truthy(Lookup(s.entries, "recursive").value),
        Lookup(s.entries, "action").value,
        Lookup(s.entries, "duration").value,
        ExtraEntries(s.entries)))
  }

  /** An accepted section's extras are its non-required options, each
      once and with its own value; together with the required settings
      they account for every option of the section. */
  lemma ActivatePartitions(s: Section)
    requires WellFormed(s) && Activate(s).Success?
    ensures IsExtrasOf(Activate(s).value.extras, s.entries)
    ensures KeySet(s.entries) == Required + KeySet(Activate(s).value.extras)
  {
  }

  /** The `recursive` option is read with Python's truthiness of a
      string: any non-empty text, including "false", "False", "0", "no"
      and "off", switches recursion on; only an empty value leaves it off. */
  lemma RecursiveIsNonEmptiness(s: Section, v: string)
    requires WellFormed(s) && Activate(s).Success? && Entry("recursive", v) in s.entries
    ensures Activate(s).value.recursive <==> v != ""
    ensures v in {"false", "False", "0", "no", "off"} ==> Activate(s).value.recursive
  {
  }

  /** The handler installed for an accepted section: its action and its
      extras flattened once. */
  function HandlerOf(p: Profile): (h: Events.Handler)
    ensures h.action == p.action
    ensures |h.arguments| == 2 * |p.extras|
    ensures forall i :: 0 <= i < |p.extras| ==>
              h.arguments[2 * i] == Flag(p.extras[i].key) && h.arguments[2 * i + 1] == p.extras[i].value
  {
    Events.Handler(p.action, ToArguments(p.extras))
  }

  /** Whatever order the extras come in, the arguments built from them
      hold no `--glob`, `--recursive`, `--action` or `--duration` flag at
      a flag (even) position, and they hold exactly one flag/value pair per non-required
      option of the section. */
  lemma ExtrasCarryNoRequiredFlag(extras: seq<Entry>, entries: seq<Entry>)
    requires IsExtrasOf(extras, entries)
    ensures forall k, i :: k in Required && 0 <= i < |extras| ==> ToArguments(extras)[2 * i] != Flag(k)
    ensures |ToArguments(extras)| == 2 * |KeySet(entries) - Required|
  {
    forall i | 0 <= i < |extras|
      ensures extras[i].key !in Required
    {
      assert extras[i].key in KeySet(extras);
    }
    NoFlagForAbsentKeys(extras, Required);
    DistinctKeysCount(extras);
  }

  /** Two admissible arrangements of a section's extras hold the same
      options with the same values; only their order can differ. */
  lemma ExtrasDifferOnlyInOrder(e1: seq<Entry>, e2: seq<Entry>, entries: seq<Entry>)
    requires DistinctKeys(entries)
    requires IsExtrasOf(e1, entries) && IsExtrasOf(e2, entries)
    ensures forall e :: e in e1 <==> e in e2
    ensures |e1| == |e2|
  {
    forall e | e in e1
      ensures e in e2
    {
      assert e.key in KeySet(e2);
      var f :| f in e2 && f.key == e.key;
      assert Lookup(entries, e.key) == Some(e.value) == Some(f.value);
    }
    forall e | e in e2
      ensures e in e1
    {
      assert e.key in KeySet(e1);
      var f :| f in e1 && f.key == e.key;
      assert Lookup(entries, e.key) == Some(e.value) == Some(f.value);
    }
    DistinctKeysCount(e1);
    DistinctKeysCount(e2);
  }

  /** Defining more options never turns an accepted section into a skipped
      one: a section holding all four required options is accepted
      whatever extra options it has. */
  lemma MoreOptionsNeverSkip(s: Section, t: Section)
    requires forall e :: e in s.entries ==> e in t.entries
    ensures Missing(t.entries) <= Missing(s.entries)
    ensures Activate(s).Success? ==> Activate(t).Success?
  {
  }
}
