/** Flattening an issue's labels into the single `labels` text column: each
    label name is written followed by ", ", the last one included, so no
    labels give the empty string and ["a", "b"] gives "a, b, ". */
module LabelText {
  import opened Wrappers
  import opened Linear

  const Separator: string := ", "

  /** The flattened text of a list of label names, in list order. */
  function Join(names: seq<string>): string {
    if names == [] then "" else names[0] + Separator + Join(names[1..])
  }

  /** Total length of the names, each counted with its separator. */
  function JoinedLength(names: seq<string>): nat {
    if names == [] then 0 else |names[0]| + |Separator| + JoinedLength(names[1..])
  }

  /** The length of the flattened text is the sum of |name| + 2. */
  lemma {:induction false} JoinLength(names: seq<string>)
    ensures |Join(names)| == JoinedLength(names)
  {
    if names != [] {
      JoinLength(names[1..]);
    }
  }

  /** Appending one label to the list appends its name and a separator to
      the text: the way the builder grows it. */
  lemma {:induction false} JoinSnoc(names: seq<string>, name: string)
    ensures Join(names + [name]) == Join(names) + name + Separator
  {
    if names == [] {
      assert names + [name] == [name];
    } else {
      assert (names + [name])[1..] == names[1..] + [name];
      JoinSnoc(names[1..], name);
    }
  }

  /** The `strings.Builder` loop of the program: write each label's name,
      then the separator. */
  method Flatten(labels: Labels) returns (s: string)
    ensures s == Join(LabelNames(labels))
    ensures labels.labelNodes == [] ==> s == ""
  {
    var names := LabelNames(labels);
    s := "";
    var i := 0;
    while i < |labels.labelNodes|
      invariant 0 <= i <= |labels.labelNodes|
      invariant s == Join(names[..i])
    {
      JoinSnoc(names[..i], labels.labelNodes[i].name);
      assert names[..i + 1] == names[..i] + [labels.labelNodes[i].name];
      s := s + labels.labelNodes[i].name;
      s := s + Separator;
      i := i + 1;
    }
    assert names[..i] == names;
  }

  // ---------------------------------------------------------------------
  // Reading the text back
  // ---------------------------------------------------------------------

  predicate SeparatorAt(s: string, k: nat) {
    k + |Separator| <= |s| && s[k..k + |Separator|] == Separator
  }

  /** The name contains no ", " of its own. */
  predicate NoSeparator(name: string) {
    forall k: nat :: k < |name| ==> !SeparatorAt(name, k)
  }

  /** The first separator at or after `from`. */
  function FirstSeparator(s: string, from: nat): (r: Option<nat>)
    requires from <= |s|
    ensures r.Some? ==> from <= r.value && SeparatorAt(s, r.value)
    ensures r.Some? ==> forall k: nat :: from <= k < r.value ==> !SeparatorAt(s, k)
    ensures r.None? ==> forall k: nat :: from <= k < |s| ==> !SeparatorAt(s, k)
    decreases |s| - from
  {
    if from + |Separator| > |s| then None
    else if SeparatorAt(s, from) then Some(from)
    else FirstSeparator(s, from + 1)
  }

  /** Split flattened text back into label names; `None` when the text is
      not a sequence of separator-terminated names. */
  function Split(s: string): Option<seq<string>>
    decreases |s|
  {
    if s == [] then Some([])
    else
      match FirstSeparator(s, 0)
      case None => None
      case Some(k) =>
        match Split(s[k + |Separator|..])
        case None => None
        case Some(rest) => Some([s[..k]] + rest)
  }

  /** Reading back flattened text recovers the label list, as long as no
      label name contains the separator itself. */
  lemma {:induction false} SplitJoin(names: seq<string>)
    requires forall i :: 0 <= i < |names| ==> NoSeparator(names[i])
    ensures Split(Join(names)) == Some(names)
  {
    if names != [] {
      var n := names[0];
      var s := Join(names);
      var tail := Join(names[1..]);
      assert s == n + Separator + tail;
      assert SeparatorAt(s, |n|) by {
        assert s[|n|..|n| + 2] == Separator;
      }
      forall k: nat | k < |n|
        ensures !SeparatorAt(s, k)
      {
        NoSeparatorInFirstName(n, tail, k);
      }
      assert FirstSeparator(s, 0) == Some(|n|);
      assert s[|n| + 2..] == tail;
      assert s[..|n|] == n;
      SplitJoin(names[1..]);
      assert [n] + names[1..] == names;
    }
  }

  /** Before the end of a separator-free first name, the joined text has
      no separator: inside the name there is none, and the name's last
      character is followed by a comma rather than a space. */
  lemma NoSeparatorInFirstName(n: string, tail: string, k: nat)
    requires NoSeparator(n) && k < |n|
    ensures !SeparatorAt(n + Separator + tail, k)
  {
    var s := n + Separator + tail;
    if k + 2 <= |n| {
      assert s[k..k + 2] == n[k..k + 2];
      assert !SeparatorAt(n, k);
    } else {
      assert s[k + 1] == ',';
      assert s[k..k + 2][1] == ',';
    }
  }

  /** Every text that reads back as a label list is that list's flattening,
      and its names contain no separator. */
  lemma {:induction false} JoinSplit(s: string)
    requires Split(s).Some?
    ensures Join(Split(s).value) == s
    ensures forall i :: 0 <= i < |Split(s).value| ==> NoSeparator(Split(s).value[i])
    decreases |s|
  {
    if s != [] {
      var k := FirstSeparator(s, 0).value;
      var rest := s[k + 2..];
      JoinSplit(rest);
      var names := Split(s).value;
      assert names == [s[..k]] + Split(rest).value;
      assert names[1..] == Split(rest).value;
      assert s == s[..k] + Separator + rest;
      FirstNameClean(s, k);
    }
  }

  /** The text before the first separator contains no separator. */
  lemma FirstNameClean(s: string, k: nat)
    requires k <= |s|
    requires forall j: nat :: j < k ==> !SeparatorAt(s, j)
    ensures NoSeparator(s[..k])
  {
    forall j: nat | j < k
      ensures !SeparatorAt(s[..k], j)
    {
      assert !SeparatorAt(s, j);
      if j + 2 <= k {
        assert s[..k][j..j + 2] == s[j..j + 2];
      }
    }
  }

  /** Flattening loses information when a name contains the separator: two
      different label lists give the same text. */
  lemma JoinNotInjective()
    ensures Join(["a, b"]) == Join(["a", "b"]) == "a, b, "
  {
  }
}
