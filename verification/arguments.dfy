/** The argument builder of main.py (`convert_to_arguments`): an ordered
    key/value mapping becomes the flat command-line tail
    `--k1, v1, --k2, v2, ...`. */
module ArgumentBuilder {
  import opened Wrappers

  /** One option of a configuration section: its name and raw string value. */
  datatype Entry = Entry(key: string, value: string)

  /** The prefix that turns an option name into a command-line flag. */
  const FlagPrefix: string := "--"

  /** The command-line flag for an option name: the name behind the flag prefix. */
  function Flag(key: string): (f: string)
    ensures |f| == |key| + 2
    ensures f[..2] == FlagPrefix && f[2..] == key
  {
    FlagPrefix + key
  }

  /** True of a string that begins with the flag prefix. */
  predicate IsFlag(s: string) {
    |s| >= 2 && s[..2] == FlagPrefix
  }

  /** No option name occurs twice (a Python dict has unique keys). */
  predicate DistinctKeys(entries: seq<Entry>) {
    forall i, j :: 0 <= i < j < |entries| ==> entries[i].key != entries[j].key
  }

  /** The option names of a mapping, in iteration order. */
  function Keys(entries: seq<Entry>): (ks: seq<string>)
    ensures |ks| == |entries|
    ensures forall i :: 0 <= i < |entries| ==> ks[i] == entries[i].key
  {
    seq(|entries|, i requires 0 <= i < |entries| => entries[i].key)
  }

  /** The values of a mapping, in iteration order. */
  function Values(entries: seq<Entry>): (vs: seq<string>)
    ensures |vs| == |entries|
    ensures forall i :: 0 <= i < |entries| ==> vs[i] == entries[i].value
  {
    seq(|entries|, i requires 0 <= i < |entries| => entries[i].value)
  }

  /** `convert_to_arguments`: for each entry in iteration order, its flag
      followed by its value. Entry i lands at positions 2i and 2i+1, so the
      relative order of the keys is kept. */
  function ToArguments(entries: seq<Entry>): (args: seq<string>)
    ensures |args| == 2 * |entries|
    ensures forall i :: 0 <= i < |entries| ==>
              args[2 * i] == Flag(entries[i].key) && args[2 * i + 1] == entries[i].value
  {
    if entries == [] then []
    else [Flag(entries[0].key), entries[0].value] + ToArguments(entries[1..])
  }

  /** The inverse of `ToArguments`: reads a flat argument list back into
      entries, failing unless it is a sequence of (flag, value) pairs. */
  function FromArguments(args: seq<string>): (r: Option<seq<Entry>>)
    ensures r.Some? <==>
              |args| % 2 == 0 && forall i :: 0 <= i < |args| / 2 ==> IsFlag(args[2 * i])
    ensures r.Some? ==> |r.value| * 2 == |args|
  {
    if args == [] then Some([])
    else if |args| == 1 then None
    else if !IsFlag(args[0]) then
      assert !IsFlag(args[2 * 0]);
      None
    else
      match FromArguments(args[2..])
      case None =>
        assert |args| % 2 == 0 ==> exists i :: 0 <= i < |args| / 2 && !IsFlag(args[2 * i]) by {
          if |args| % 2 == 0 {
            var i :| 0 <= i < |args[2..]| / 2 && !IsFlag(args[2..][2 * i]);
            assert args[2..][2 * i] == args[2 * (i + 1)];
          }
        }
        None
      case Some(rest) =>
        assert forall i :: 1 <= i < |args| / 2 ==> args[2 * i] == args[2..][2 * (i - 1)];
        Some([Entry(args[0][2..], args[1])] + rest)
  }

  /** Building then parsing gives back the mapping: nothing is lost. */
  lemma {:induction false} ParseAfterBuild(entries: seq<Entry>)
    ensures FromArguments(ToArguments(entries)) == Some(entries)
  {
    if entries != [] {
      var args := ToArguments(entries);
      assert args[2..] == ToArguments(entries[1..]);
      ParseAfterBuild(entries[1..]);
      assert args[0][2..] == entries[0].key;
      assert [entries[0]] + entries[1..] == entries;
    }
  }

  /** Parsing then building gives back the argument list: every
      well-formed flag/value list comes from exactly one mapping. */
  lemma {:induction false} BuildAfterParse(args: seq<string>, entries: seq<Entry>)
    requires FromArguments(args) == Some(entries)
    ensures ToArguments(entries) == args
  {
    if args != [] {
      var rest := FromArguments(args[2..]).value;
      BuildAfterParse(args[2..], rest);
      assert entries == [Entry(args[0][2..], args[1])] + rest;
      assert entries[1..] == rest;
      assert Flag(args[0][2..]) == args[0];
      assert args == [args[0], args[1]] + args[2..];
    }
  }

  /** The option names read off the even positions of an argument list,
      with the flag prefix stripped. */
  function FlagNames(args: seq<string>): (names: seq<string>)
    requires forall i :: 0 <= i < |args| / 2 ==> IsFlag(args[2 * i])
    ensures |names| == |args| / 2
  {
    seq(|args| / 2, i requires 0 <= i < |args| / 2 => assert IsFlag(args[2 * i]); args[2 * i][2..])
  }

  /** The elements at the odd positions of an argument list. */
  function OddElements(args: seq<string>): (odd: seq<string>)
    ensures |odd| == |args| / 2
  {
    seq(|args| / 2, i requires 0 <= i < |args| / 2 => args[2 * i + 1])
  }

  /** Every even position holds a flag; stripping the prefix from the even
      elements gives the keys in order, and the odd elements are the values
      in order. */
  lemma EvenFlagsOddValues(entries: seq<Entry>)
    ensures var args := ToArguments(entries);
      && (forall i :: 0 <= i < |args| / 2 ==> IsFlag(args[2 * i]))
      && FlagNames(args) == Keys(entries)
      && OddElements(args) == Values(entries)
  {
  }

  /** A mapping whose keys avoid a set of names puts no flag for any of
      those names at a flag (even) position. Values are copied verbatim,
      so an odd position may still hold such a string. */
  lemma NoFlagForAbsentKeys(entries: seq<Entry>, banned: set<string>)
    requires forall i :: 0 <= i < |entries| ==> entries[i].key !in banned
    ensures forall k, i :: k in banned && 0 <= i < |entries| ==> ToArguments(entries)[2 * i] != Flag(k)
  {
  }
}
