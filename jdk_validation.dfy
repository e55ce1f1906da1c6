/**
 * The validation rule over the declared JDKs: JDKs are grouped by the
 * canonical form of their installation path, and every path shared by
 * two or more JDKs yields one error line; any error line fails the
 * validation with one aggregated message.
 *
 * The canonical-path lookup is the input `canonical`, applied to the
 * declared path of each JDK.
 */
module JdkValidation {
  import opened Strings
  import opened Jdks

  /** Result of a validation rule: it passes, or it throws with a message. */
  datatype Outcome = Pass | Fail(message: string)

  /**
   * An ImmutableListMultimap from canonical path to JDKs: the distinct keys
   * in the order they were first put, and for each key its values in the
   * order they were put.
   */
  datatype PathIndex = PathIndex(keys: seq<string>, values: map<string, seq<JdkSpec>>)

  /** Multimap.get: the values under `key`, empty when there are none. */
  function Get(index: PathIndex, key: string): (jdks: seq<JdkSpec>)
    ensures key !in index.values ==> jdks == []
    ensures key in index.values ==> jdks == index.values[key]
  {
    if key in index.values then index.values[key] else []
  }

  /** One builder step of Multimaps.index: `jdk` added under `key`. */
  function Put(index: PathIndex, key: string, jdk: JdkSpec): (index': PathIndex)
    ensures key in index'.values
  {
    if key in index.values then PathIndex(index.keys, index.values[key := index.values[key] + [jdk]])
    else PathIndex(index.keys + [key], index.values[key := [jdk]])
  }

  /**
   * One put appends `jdk` to the values under `key`, adds `key` as the last
   * key when it is new, and leaves every other key's values as they were.
   */
  lemma PutGet(index: PathIndex, key: string, jdk: JdkSpec, other: string)
    ensures Get(Put(index, key, jdk), key) == Get(index, key) + [jdk]
    ensures Put(index, key, jdk).keys == if key in index.values then index.keys else index.keys + [key]
    ensures other != key ==> Get(Put(index, key, jdk), other) == Get(index, other)
  {
  }

  /** The keys are distinct and are exactly the keys that have values. */
  ghost predicate WellFormed(index: PathIndex) {
    && (forall a, b :: 0 <= a < b < |index.keys| ==> index.keys[a] != index.keys[b])
    && (forall k :: k in index.keys <==> k in index.values)
  }

  /** The canonical path of every declared JDK, in declaration order. */
  function Paths(jdks: seq<JdkSpec>, canonical: string -> string): (ps: seq<string>)
    ensures |ps| == |jdks|
    ensures forall i :: 0 <= i < |jdks| ==> ps[i] == canonical(jdks[i].path)
  {
    seq(|jdks|, i requires 0 <= i < |jdks| => canonical(jdks[i].path))
  }

  /** The JDKs whose canonical path is `p`, in declaration order. */
  function WithPath(jdks: seq<JdkSpec>, canonical: string -> string, p: string): seq<JdkSpec> {
    if jdks == [] then []
    else (if canonical(jdks[0].path) == p then [jdks[0]] else []) + WithPath(jdks[1..], canonical, p)
  }

  /** The position of the first occurrence of `x` in `s`. */
  function FirstIndex(s: seq<string>, x: string): (r: nat)
    requires x in s
    ensures r < |s| && s[r] == x
    ensures forall i :: 0 <= i < r ==> s[i] != x
  {
    if s[0] == x then 0 else 1 + FirstIndex(s[1..], x)
  }

  /**
   * toImmutableJdkList: the declared JDKs copied one by one into a fresh
   * list, as the afterEach action appends each of them.
   */
  method ToImmutableJdkList(jdks: seq<JdkSpec>) returns (asImmutable: seq<JdkSpec>)
    ensures asImmutable == jdks
  {
    asImmutable := [];
    var i := 0;
    while i < |jdks|
      invariant 0 <= i <= |jdks|
      invariant asImmutable == jdks[..i]
    {
      asImmutable := asImmutable + [jdks[i]];
      i := i + 1;
    }
  }

  /** indexByPath: Multimaps.index over the JDK list, keyed by canonical path. */
  function IndexByPath(jdks: seq<JdkSpec>, canonical: string -> string): (index: PathIndex)
    ensures |index.keys| <= |jdks|
    decreases |jdks|
  {
    if jdks == [] then PathIndex([], map[])
    else
      var last := jdks[|jdks| - 1];
      Put(IndexByPath(jdks[..|jdks| - 1], canonical), canonical(last.path), last)
  }

  /** The names of `group`, in order. */
  function Names(group: seq<JdkSpec>): (names: seq<string>)
    ensures |names| == |group|
    ensures forall i :: 0 <= i < |group| ==> names[i] == group[i].name
  {
    seq(|group|, i requires 0 <= i < |group| => group[i].name)
  }

  /** The error line for JDKs `group` all pointing at `path`. */
  function ErrorLine(group: seq<JdkSpec>, path: string): (line: string)
    ensures |line| >= 5 && line[..5] == "   - "
    ensures EndsWith(line, " are both pointing to the same JDK installation path: " + path)
  {
    "   - " + Join(Names(group), ", ") + " are both pointing to the same JDK installation path: " + path
  }

  /** The error line contributed by one key: one when it has several JDKs, none otherwise. */
  function LineFor(index: PathIndex, path: string): (lines: seq<string>)
    ensures |lines| <= 1
    ensures |lines| == 1 <==> |Get(index, path)| > 1
    ensures lines != [] ==> lines[0] == ErrorLine(Get(index, path), path)
  {
    var group := Get(index, path);
    if |group| > 1 then [ErrorLine(group, path)] else []
  }

  /** The error lines collected by checking `keys` in order. */
  function ErrorLines(index: PathIndex, keys: seq<string>): (lines: seq<string>)
    ensures |lines| <= |keys|
    decreases |keys|
  {
    if keys == [] then []
    else ErrorLines(index, keys[..|keys| - 1]) + LineFor(index, keys[|keys| - 1])
  }

  /** The aggregated message thrown when there are error lines. */
  function DuplicateMessage(errors: seq<string>): (message: string)
    ensures |message| >= 24 && message[..24] == "Duplicate JDK declared:\n"
    ensures |errors| == 1 ==> message == "Duplicate JDK declared:\n" + errors[0]

  {
    "Duplicate JDK declared:\n" + Join(errors, "\n")
  }

  /** The message's length is the prefix's 24 characters plus the lines' total length plus one newline per gap. */
  lemma DuplicateMessageLength(errors: seq<string>)
    requires errors != []
    ensures |DuplicateMessage(errors)| == 24 + TotalLength(errors) + |errors| - 1
  {
    JoinLength(errors, "\n");
  }

  /** Each further line is appended to the message after a newline. */
  lemma DuplicateMessageAppend(errors: seq<string>, line: string)
    requires errors != []
    ensures DuplicateMessage(errors + [line]) == DuplicateMessage(errors) + "\n" + line
  {
    JoinAppend(errors, line, "\n");
  }

  /** What validateJDKs does with the declared JDKs. */
  function Validation(jdks: seq<JdkSpec>, canonical: string -> string): (outcome: Outcome)
    ensures |jdks| <= 1 ==> outcome == Pass
    ensures outcome.Fail? ==> |outcome.message| >= 24 && outcome.message[..24] == "Duplicate JDK declared:\n"
  {
    var index := IndexByPath(jdks, canonical);
    var errors := ErrorLines(index, index.keys);
    if errors == [] then Pass else Fail(DuplicateMessage(errors))
  }

  /** checkDuplicateForPath: appends the line for `path`, if any, to `errors`. */
  method CheckDuplicateForPath(index: PathIndex, path: string, errors: seq<string>) returns (errors': seq<string>)
    ensures errors' == errors + LineFor(index, path)
    ensures |errors'| == |errors| + (if |Get(index, path)| > 1 then 1 else 0)
  {
    var jdkSpecs := Get(index, path);
    errors' := errors;
    if |jdkSpecs| > 1 {
      errors' := errors' + [ErrorLine(jdkSpecs, path)];
    }
  }

  /**
   * validateJDKs: index the JDKs by canonical path, check every key in
   * order, and fail with the aggregated message when a line was produced.
   */
  method ValidateJdks(jdks: seq<JdkSpec>, canonical: string -> string) returns (outcome: Outcome)
    ensures outcome == Validation(jdks, canonical)
  {
    var asImmutable := ToImmutableJdkList(jdks);
    var jdksByPath := IndexByPath(asImmutable, canonical);
    assert jdksByPath == IndexByPath(jdks, canonical);
    var errors: seq<string> := [];
    var i := 0;
    while i < |jdksByPath.keys|
      invariant 0 <= i <= |jdksByPath.keys|
      invariant errors == ErrorLines(jdksByPath, jdksByPath.keys[..i])
    {
      assert jdksByPath.keys[..i + 1][..i] == jdksByPath.keys[..i];
      assert ErrorLines(jdksByPath, jdksByPath.keys[..i + 1])
          == ErrorLines(jdksByPath, jdksByPath.keys[..i]) + LineFor(jdksByPath, jdksByPath.keys[i]);
      errors := CheckDuplicateForPath(jdksByPath, jdksByPath.keys[i], errors);
      i := i + 1;
    }
    assert jdksByPath.keys[..i] == jdksByPath.keys;
    assert errors == ErrorLines(jdksByPath, jdksByPath.keys);
    if |errors| > 0 {
      return Fail(DuplicateMessage(errors));
    }
    return Pass;
  }

  // ---------------------------------------------------------------------
  // Grouping: the index agrees with the declaration-order definitions.
  // ---------------------------------------------------------------------

  /** Filtering a list with one more JDK at the end. */
  lemma {:induction false} WithPathAppend(jdks: seq<JdkSpec>, jdk: JdkSpec, canonical: string -> string, p: string)
    ensures WithPath(jdks + [jdk], canonical, p)
         == WithPath(jdks, canonical, p) + (if canonical(jdk.path) == p then [jdk] else [])
  {
    if jdks != [] {
      assert (jdks + [jdk])[1..] == jdks[1..] + [jdk];
      WithPathAppend(jdks[1..], jdk, canonical, p);
    }
  }

  /** The first occurrence of an element is not moved by appending. */
  lemma FirstIndexAppend(s: seq<string>, y: string, x: string)
    requires x in s
    ensures FirstIndex(s + [y], x) == FirstIndex(s, x)
  {
    var r1, r2 := FirstIndex(s + [y], x), FirstIndex(s, x);
    assert (s + [y])[r2] == x;
    assert r1 <= r2;
    assert s[r1] == x;
  }

  /** The keys of the multimap are distinct and are exactly the canonical paths. */
  lemma {:induction false} IndexByPathKeys(jdks: seq<JdkSpec>, canonical: string -> string)
    ensures var index := IndexByPath(jdks, canonical);
      && WellFormed(index)
      && (forall k :: k in index.keys <==> k in Paths(jdks, canonical))
    decreases |jdks|
  {
    if jdks != [] {
      var front, last := jdks[..|jdks| - 1], jdks[|jdks| - 1];
      IndexByPathKeys(front, canonical);
      assert Paths(jdks, canonical) == Paths(front, canonical) + [canonical(last.path)];
    }
  }

  /** Under each key are exactly the JDKs with that canonical path, in declaration order. */
  lemma {:induction false} IndexByPathGroups(jdks: seq<JdkSpec>, canonical: string -> string, k: string)
    ensures Get(IndexByPath(jdks, canonical), k) == WithPath(jdks, canonical, k)
    decreases |jdks|
  {
    if jdks != [] {
      var front, last := jdks[..|jdks| - 1], jdks[|jdks| - 1];
      assert jdks == front + [last];
      IndexByPathGroups(front, canonical, k);
      WithPathAppend(front, last, canonical, k);
    }
  }

  /** The keys come in the order in which their paths were first declared. */
  lemma {:induction false} IndexByPathOrder(jdks: seq<JdkSpec>, canonical: string -> string)
    ensures var index := IndexByPath(jdks, canonical);
      forall a, b :: 0 <= a < b < |index.keys| && index.keys[a] in Paths(jdks, canonical) && index.keys[b] in Paths(jdks, canonical) ==>
        FirstIndex(Paths(jdks, canonical), index.keys[a]) < FirstIndex(Paths(jdks, canonical), index.keys[b])
    decreases |jdks|
  {
    if jdks != [] {
      var front, last := jdks[..|jdks| - 1], jdks[|jdks| - 1];
      IndexByPathOrder(front, canonical);
      IndexByPathKeys(front, canonical);
      var before := IndexByPath(front, canonical);
      var p := canonical(last.path);
      var ps := Paths(front, canonical);
      assert Paths(jdks, canonical) == ps + [p];
      assert IndexByPath(jdks, canonical) == Put(before, p, last);
      PutGet(before, p, last, p);
      assert p !in before.values ==> p !in ps;
      OrderStep(before.keys, ps, p, IndexByPath(jdks, canonical).keys);
    }
  }

  /**
   * Keys ordered by first occurrence in `ps` stay ordered by first
   * occurrence in `ps + [p]`, also when the new path `p` is added last.
   */
  lemma OrderStep(keys: seq<string>, ps: seq<string>, p: string, keys': seq<string>)
    requires forall k :: k in keys ==> k in ps
    requires forall a, b :: 0 <= a < b < |keys| && keys[a] in ps && keys[b] in ps ==>
      FirstIndex(ps, keys[a]) < FirstIndex(ps, keys[b])
    requires keys' == keys || (keys' == keys + [p] && p !in ps)
    ensures forall a, b :: 0 <= a < b < |keys'| && keys'[a] in ps + [p] && keys'[b] in ps + [p] ==>
      FirstIndex(ps + [p], keys'[a]) < FirstIndex(ps + [p], keys'[b])
  {
    forall a, b | 0 <= a < b < |keys'| && keys'[a] in ps + [p] && keys'[b] in ps + [p]
      ensures FirstIndex(ps + [p], keys'[a]) < FirstIndex(ps + [p], keys'[b])
    {
      assert keys'[a] == keys[a] && keys[a] in ps;
      FirstIndexAppend(ps, p, keys[a]);
      if b < |keys| {
        assert keys'[b] == keys[b] && keys[b] in ps;
        FirstIndexAppend(ps, p, keys[b]);
      } else {
        assert keys'[b] == p;
      }
    }
  }

  /**
   * The multimap built by indexByPath has one key per distinct canonical
   * path, in order of first declaration, and under each key exactly the
   * JDKs with that path, in declaration order.
   */
  lemma IndexByPathCorrect(jdks: seq<JdkSpec>, canonical: string -> string)
    ensures var index := IndexByPath(jdks, canonical);
      && WellFormed(index)
      && (forall k :: k in index.keys <==> k in Paths(jdks, canonical))
      && (forall k :: Get(index, k) == WithPath(jdks, canonical, k))
      && (forall a, b :: 0 <= a < b < |index.keys| ==>
            FirstIndex(Paths(jdks, canonical), index.keys[a]) < FirstIndex(Paths(jdks, canonical), index.keys[b]))
  {
    IndexByPathKeys(jdks, canonical);
    IndexByPathOrder(jdks, canonical);
    forall k ensures Get(IndexByPath(jdks, canonical), k) == WithPath(jdks, canonical, k) {
      IndexByPathGroups(jdks, canonical, k);
    }
  }

  /** A JDK declared with canonical path `p` lands in the group of `p`. */
  lemma {:induction false} InGroup(jdks: seq<JdkSpec>, canonical: string -> string, i: nat)
    requires i < |jdks|
    ensures |WithPath(jdks, canonical, canonical(jdks[i].path))| > 0
  {
    if i > 0 {
      InGroup(jdks[1..], canonical, i - 1);
    }
  }

  /** Two JDKs declared with the same canonical path make its group hold several JDKs. */
  lemma {:induction false} SharedGroup(jdks: seq<JdkSpec>, canonical: string -> string, i: nat, j: nat)
    requires i < j < |jdks| && canonical(jdks[i].path) == canonical(jdks[j].path)
    ensures |WithPath(jdks, canonical, canonical(jdks[i].path))| > 1
  {
    if i == 0 {
      InGroup(jdks[1..], canonical, j - 1);
    } else {
      SharedGroup(jdks[1..], canonical, i - 1, j - 1);
    }
  }

  /** A non-empty group has a declared JDK at its path. */
  lemma {:induction false} GroupMember(jdks: seq<JdkSpec>, canonical: string -> string, p: string) returns (i: nat)
    requires |WithPath(jdks, canonical, p)| > 0
    ensures i < |jdks| && canonical(jdks[i].path) == p
  {
    if canonical(jdks[0].path) == p {
      i := 0;
    } else {
      var k := GroupMember(jdks[1..], canonical, p);
      i := k + 1;
    }
  }

  /** A group holding several JDKs has two distinct declared JDKs at its path. */
  lemma {:induction false} SharedWitness(jdks: seq<JdkSpec>, canonical: string -> string, p: string) returns (i: nat, j: nat)
    requires |WithPath(jdks, canonical, p)| > 1
    ensures i < j < |jdks| && canonical(jdks[i].path) == p && canonical(jdks[j].path) == p
  {
    if canonical(jdks[0].path) == p {
      var k := GroupMember(jdks[1..], canonical, p);
      i, j := 0, k + 1;
    } else {
      var a, b := SharedWitness(jdks[1..], canonical, p);
      i, j := a + 1, b + 1;
    }
  }

  // ---------------------------------------------------------------------
  // Error lines: one per shared path.
  // ---------------------------------------------------------------------

  /** The paths at which two or more JDKs are declared. */
  function SharedPaths(jdks: seq<JdkSpec>, canonical: string -> string): set<string> {
    set p | p in Paths(jdks, canonical) && |WithPath(jdks, canonical, p)| > 1
  }

  /** The keys among `keys` that hold several JDKs. */
  function SharedKeys(index: PathIndex, keys: seq<string>): set<string> {
    set k | k in keys && |Get(index, k)| > 1
  }

  /** One more key adds itself to the shared keys exactly when it holds several JDKs. */
  lemma SharedKeysAppend(index: PathIndex, keys: seq<string>, key: string)
    ensures SharedKeys(index, keys + [key]) == SharedKeys(index, keys) + (if |Get(index, key)| > 1 then {key} else {})
  {
    assert forall k :: k in keys + [key] <==> k in keys || k == key;
  }

  /** Checking distinct keys yields exactly one line per key holding several JDKs. */
  lemma {:induction false} ErrorLinesCount(index: PathIndex, keys: seq<string>)
    requires forall a, b :: 0 <= a < b < |keys| ==> keys[a] != keys[b]
    ensures |ErrorLines(index, keys)| == |SharedKeys(index, keys)|
    decreases |keys|
  {
    if keys != [] {
      var front, last := keys[..|keys| - 1], keys[|keys| - 1];
      assert keys == front + [last];
      ErrorLinesCount(index, front);
      SharedKeysAppend(index, front, last);
      assert last !in front;
    }
  }

  /** Every line is the error line of a key holding several JDKs, and every such key has its line. */
  lemma {:induction false} ErrorLinesMembers(index: PathIndex, keys: seq<string>, line: string)
    ensures line in ErrorLines(index, keys) <==>
      exists k :: k in SharedKeys(index, keys) && line == ErrorLine(Get(index, k), k)
    decreases |keys|
  {
    if keys != [] {
      var front, last := keys[..|keys| - 1], keys[|keys| - 1];
      assert keys == front + [last];
      ErrorLinesMembers(index, front, line);
      SharedKeysAppend(index, front, last);
    }
  }

  /**
   * Checking distinct keys yields exactly one line per key holding several
   * JDKs, and those lines are the error lines of those keys.
   */
  lemma ErrorLinesPerKey(index: PathIndex, keys: seq<string>)
    requires forall a, b :: 0 <= a < b < |keys| ==> keys[a] != keys[b]
    ensures |ErrorLines(index, keys)| == |SharedKeys(index, keys)|
    ensures forall line :: line in ErrorLines(index, keys) <==>
      exists k :: k in SharedKeys(index, keys) && line == ErrorLine(Get(index, k), k)
  {
    ErrorLinesCount(index, keys);
    forall line ensures line in ErrorLines(index, keys) <==>
      exists k :: k in SharedKeys(index, keys) && line == ErrorLine(Get(index, k), k)
    {
      ErrorLinesMembers(index, keys, line);
    }
  }

  /** The keys among `keys` that hold several JDKs, in the order of `keys`. */
  function SharedKeysInOrder(index: PathIndex, keys: seq<string>): seq<string>
    decreases |keys|
  {
    if keys == [] then []
    else
      var last := keys[|keys| - 1];
      SharedKeysInOrder(index, keys[..|keys| - 1]) + (if |Get(index, last)| > 1 then [last] else [])
  }

  /** The error lines are, in order, the lines of the keys holding several JDKs. */
  lemma {:induction false} ErrorLinesInOrder(index: PathIndex, keys: seq<string>)
    ensures var shared := SharedKeysInOrder(index, keys);
      && |ErrorLines(index, keys)| == |shared|
      && forall t :: 0 <= t < |shared| ==>
           |Get(index, shared[t])| > 1 && ErrorLines(index, keys)[t] == ErrorLine(Get(index, shared[t]), shared[t])
    decreases |keys|
  {
    if keys != [] {
      ErrorLinesInOrder(index, keys[..|keys| - 1]);
    }
  }

  /** Every key kept by the filter sits at some position of `keys`. */
  lemma {:induction false} SharedKeyPosition(index: PathIndex, keys: seq<string>, a: nat) returns (ia: nat)
    requires a < |SharedKeysInOrder(index, keys)|
    ensures ia < |keys| && keys[ia] == SharedKeysInOrder(index, keys)[a]
    decreases |keys|
  {
    var front := keys[..|keys| - 1];
    if a < |SharedKeysInOrder(index, front)| {
      ia := SharedKeyPosition(index, front, a);
    } else {
      ia := |keys| - 1;
    }
  }

  /** The filter keeps the order of `keys`. */
  lemma {:induction false} SharedKeyPositions(index: PathIndex, keys: seq<string>, a: nat, b: nat) returns (ia: nat, ib: nat)
    requires a < b < |SharedKeysInOrder(index, keys)|
    ensures ia < ib < |keys|
    ensures keys[ia] == SharedKeysInOrder(index, keys)[a] && keys[ib] == SharedKeysInOrder(index, keys)[b]
    decreases |keys|
  {
    var front := keys[..|keys| - 1];
    if b < |SharedKeysInOrder(index, front)| {
      ia, ib := SharedKeyPositions(index, front, a, b);
    } else {
      ia := SharedKeyPosition(index, front, a);
      ib := |keys| - 1;
    }
  }

  /** The keys checked with several JDKs are exactly the shared paths. */
  lemma SharedKeysArePaths(jdks: seq<JdkSpec>, canonical: string -> string)
    ensures var index := IndexByPath(jdks, canonical);
      SharedKeys(index, index.keys) == SharedPaths(jdks, canonical)
  {
    var index := IndexByPath(jdks, canonical);
    IndexByPathKeys(jdks, canonical);
    forall k | k in index.keys || k in Paths(jdks, canonical)
      ensures Get(index, k) == WithPath(jdks, canonical, k)
    {
      IndexByPathGroups(jdks, canonical, k);
    }
  }

  /** One error line per shared path, naming every JDK at that path. */
  lemma ValidationLines(jdks: seq<JdkSpec>, canonical: string -> string)
    ensures var index := IndexByPath(jdks, canonical);
      var errors := ErrorLines(index, index.keys);
      && |errors| == |SharedPaths(jdks, canonical)|
      && (forall line :: line in errors <==>
            exists p :: p in SharedPaths(jdks, canonical) && line == ErrorLine(WithPath(jdks, canonical, p), p))
  {
    var index := IndexByPath(jdks, canonical);
    var shared := SharedPaths(jdks, canonical);
    IndexByPathKeys(jdks, canonical);
    SharedKeysArePaths(jdks, canonical);
    ErrorLinesPerKey(index, index.keys);
    forall p | p in shared
      ensures Get(index, p) == WithPath(jdks, canonical, p)
    {
      IndexByPathGroups(jdks, canonical, p);
    }
  }

  /** Validation fails exactly when two declared JDKs share a canonical path. */
  lemma ValidationFails(jdks: seq<JdkSpec>, canonical: string -> string)
    ensures Validation(jdks, canonical).Fail? <==>
      exists i, j :: 0 <= i < j < |jdks| && canonical(jdks[i].path) == canonical(jdks[j].path)
  {
    var index := IndexByPath(jdks, canonical);
    var errors := ErrorLines(index, index.keys);
    var shared := SharedPaths(jdks, canonical);
    IndexByPathKeys(jdks, canonical);
    SharedKeysArePaths(jdks, canonical);
    ErrorLinesCount(index, index.keys);
    assert Validation(jdks, canonical).Fail? <==> |shared| > 0;
    if exists i, j :: 0 <= i < j < |jdks| && canonical(jdks[i].path) == canonical(jdks[j].path) {
      var i, j :| 0 <= i < j < |jdks| && canonical(jdks[i].path) == canonical(jdks[j].path);
      SharedGroup(jdks, canonical, i, j);
      assert Paths(jdks, canonical)[i] == canonical(jdks[i].path);
      assert canonical(jdks[i].path) in shared;
    }
    if |shared| > 0 {
      var p :| p in shared;
      var i, j := SharedWitness(jdks, canonical, p);
    }
  }

  /**
   * Validation fails exactly when two declared JDKs share a canonical
   * path, and then with one error line per shared path (never one per
   * pair): each line names all the JDKs at its path, in declaration order.
   */
  lemma ValidationCorrect(jdks: seq<JdkSpec>, canonical: string -> string)
    ensures Validation(jdks, canonical).Fail? <==>
      exists i, j :: 0 <= i < j < |jdks| && canonical(jdks[i].path) == canonical(jdks[j].path)
    ensures var index := IndexByPath(jdks, canonical);
      var errors := ErrorLines(index, index.keys);
      && |errors| == |SharedPaths(jdks, canonical)|
      && (forall line :: line in errors <==>
            exists p :: p in SharedPaths(jdks, canonical) && line == ErrorLine(WithPath(jdks, canonical, p), p))
      && (errors != [] ==> Validation(jdks, canonical) == Fail(DuplicateMessage(errors)))
  {
    ValidationFails(jdks, canonical);
    ValidationLines(jdks, canonical);
  }

  /**
   * The error lines come in the order in which their paths were first
   * declared: line `t` is the line of the `t`-th shared path, and the
   * shared paths are listed by their first declaration.
   */
  lemma ValidationLineOrder(jdks: seq<JdkSpec>, canonical: string -> string)
    ensures var index := IndexByPath(jdks, canonical);
      var shared := SharedKeysInOrder(index, index.keys);
      var errors := ErrorLines(index, index.keys);
      && |errors| == |shared|
      && (forall t :: 0 <= t < |shared| ==>
            shared[t] in SharedPaths(jdks, canonical) &&
            errors[t] == ErrorLine(WithPath(jdks, canonical, shared[t]), shared[t]))
      && (forall a, b :: 0 <= a < b < |shared| ==>
            FirstIndex(Paths(jdks, canonical), shared[a]) < FirstIndex(Paths(jdks, canonical), shared[b]))
  {
    var index := IndexByPath(jdks, canonical);
    var shared := SharedKeysInOrder(index, index.keys);
    var errors := ErrorLines(index, index.keys);
    var ps := Paths(jdks, canonical);
    IndexByPathKeys(jdks, canonical);
    IndexByPathOrder(jdks, canonical);
    ErrorLinesInOrder(index, index.keys);
    forall t | 0 <= t < |shared|
      ensures shared[t] in SharedPaths(jdks, canonical)
      ensures errors[t] == ErrorLine(WithPath(jdks, canonical, shared[t]), shared[t])
    {
      var it := SharedKeyPosition(index, index.keys, t);
      IndexByPathGroups(jdks, canonical, shared[t]);
      assert shared[t] in ps;
    }
    forall a, b | 0 <= a < b < |shared|
      ensures FirstIndex(ps, shared[a]) < FirstIndex(ps, shared[b])
    {
      var ia, ib := SharedKeyPositions(index, index.keys, a, b);
      assert index.keys[ia] in ps && index.keys[ib] in ps;
    }
  }

  /** The identity lookup: declared paths that are already canonical. */
  function AsDeclared(path: string): string {
    path
  }

  /**
   * Two JDKs at the same path fail with one line naming both, in
   * declaration order, and the shared path.
   */
  lemma TwoJdksOnOnePath()
    ensures Validation([JdkSpec("jdk1", "/usr/lib/jvm/8"), JdkSpec("jdk2", "/usr/lib/jvm/8")], AsDeclared)
         == Fail("Duplicate JDK declared:\n" +
                 ("   - " + "jdk1, jdk2" + " are both pointing to the same JDK installation path: " + "/usr/lib/jvm/8"))
  {
    var jdk1, jdk2 := JdkSpec("jdk1", "/usr/lib/jvm/8"), JdkSpec("jdk2", "/usr/lib/jvm/8");
    var jdks := [jdk1, jdk2];
    assert jdks[..1] == [jdk1];
    assert [jdk1][..0] == [];
    var p := "/usr/lib/jvm/8";
    var one := IndexByPath([jdk1], AsDeclared);
    assert one == Put(PathIndex([], map[]), p, jdk1) == PathIndex([p], map[p := [jdk1]]);
    var index := IndexByPath(jdks, AsDeclared);
    assert index == Put(one, p, jdk2);
    assert [jdk1] + [jdk2] == [jdk1, jdk2];
    assert map[p := [jdk1]][p := [jdk1, jdk2]] == map[p := [jdk1, jdk2]];
    assert index == PathIndex([p], map[p := [jdk1, jdk2]]);
    assert index.keys[..0] == [];
    assert Names([jdk1, jdk2]) == ["jdk1", "jdk2"];
    assert Join(["jdk1", "jdk2"], ", ") == "jdk1" + ", " + Join(["jdk2"], ", ");
    assert Join(["jdk2"], ", ") == "jdk2";
    assert "jdk1" + ", " + "jdk2" == "jdk1, jdk2";
    assert Join(Names([jdk1, jdk2]), ", ") == "jdk1, jdk2";
    var line := ErrorLine([jdk1, jdk2], p);
    assert ErrorLines(index, index.keys) == [line];
    assert Join([line], "\n") == line;
  }

  /** Three JDKs at one path give a single line naming all three, not one line per pair. */
  lemma ThreeJdksOnOnePath()
    ensures var jdks := [JdkSpec("a", "/jdk"), JdkSpec("b", "/jdk"), JdkSpec("c", "/jdk")];
      Validation(jdks, AsDeclared)
      == Fail("Duplicate JDK declared:\n" +
              ("   - " + "a, b, c" + " are both pointing to the same JDK installation path: " + "/jdk"))
  {
    var a, b, c := JdkSpec("a", "/jdk"), JdkSpec("b", "/jdk"), JdkSpec("c", "/jdk");
    var jdks := [a, b, c];
    assert jdks[..2] == [a, b];
    assert [a, b][..1] == [a];
    assert [a][..0] == [];
    var p := "/jdk";
    var one := IndexByPath([a], AsDeclared);
    assert one == Put(PathIndex([], map[]), p, a) == PathIndex([p], map[p := [a]]);
    var two := IndexByPath([a, b], AsDeclared);
    assert [a] + [b] == [a, b] && [a, b] + [c] == [a, b, c];
    assert map[p := [a]][p := [a, b]] == map[p := [a, b]];
    assert map[p := [a, b]][p := [a, b, c]] == map[p := [a, b, c]];
    assert two == Put(one, p, b) == PathIndex([p], map[p := [a, b]]);
    var index := IndexByPath(jdks, AsDeclared);
    assert index == Put(two, p, c);
    assert index == PathIndex([p], map[p := [a, b, c]]);
    assert index.keys[..0] == [];
    assert Names([a, b, c]) == ["a", "b", "c"];
    assert Join(["a", "b", "c"], ", ") == "a" + ", " + Join(["b", "c"], ", ");
    assert Join(["b", "c"], ", ") == "b" + ", " + Join(["c"], ", ");
    assert Join(["c"], ", ") == "c";
    assert "b" + ", " + "c" == "b, c" && "a" + ", " + "b, c" == "a, b, c";
    assert Join(Names([a, b, c]), ", ") == "a, b, c";
    var line := ErrorLine([a, b, c], p);
    assert ErrorLines(index, index.keys) == [line];
    assert Join([line], "\n") == line;
  }
}
