/**
 * Names of the two tasks the JVM component rules create for each jar
 * binary, derived from the binary's project-scoped name: the runtime jar
 * task and the API jar task.
 */
module TaskNames {
  import opened Strings

  /**
   * apiJarTaskName: one trailing "Jar" is dropped from the binary name
   * and "ApiJar" is appended.
   */
  function ApiJarTaskName(binaryName: string): (r: string)
    ensures EndsWith(r, "ApiJar")
    ensures |r| == |binaryName| + (if EndsWith(binaryName, "Jar") then 3 else 6)
  {
    var libName := if EndsWith(binaryName, "Jar") then binaryName[..|binaryName| - 3] else binaryName;
    libName + "ApiJar"
  }

  /** The name of the runtime jar task (the local createRuntimeJar in createTasks). */
  function RuntimeJarTaskName(binaryName: string): (r: string)
    ensures |r| == |binaryName| + 6
    ensures r[..6] == "create"
  {
    CapitalizeKeepsLetters(binaryName);
    "create" + Capitalize(binaryName)
  }

  /**
   * The binary name is recovered from the API task name by dropping
   * "ApiJar" and putting back the "Jar" that was removed, if one was.
   */
  lemma ApiJarTaskNameRoundTrip(binaryName: string)
    ensures var r := ApiJarTaskName(binaryName);
      r[..|r| - 6] + (if EndsWith(binaryName, "Jar") then "Jar" else "") == binaryName
  {
    var r := ApiJarTaskName(binaryName);
    if EndsWith(binaryName, "Jar") {
      assert binaryName[..|binaryName| - 3] + binaryName[|binaryName| - 3..] == binaryName;
    } else {
      assert r[..|r| - 6] == binaryName;
    }
  }

  /** Only one "Jar" suffix is removed. */
  lemma ApiJarTaskNameExamples()
    ensures ApiJarTaskName("mainJar") == "mainApiJar"
    ensures ApiJarTaskName("JarJar") == "JarApiJar"
    ensures ApiJarTaskName("main") == "mainApiJar"
  {
  }

  /**
   * The name is not injective: a binary called "main" and one called
   * "mainJar" get the same API task name.
   */
  lemma ApiJarTaskNameNotInjective()
    ensures exists a: string, b: string :: a != b && ApiJarTaskName(a) == ApiJarTaskName(b)
  {
    ApiJarTaskNameExamples();
    assert "main" != "mainJar";
  }

  /**
   * The runtime task name is "create" followed by the binary name whose
   * first character is upper-cased; the rest of the name is kept, and the
   * name differs from the binary name only in that one character's case.
   */
  lemma RuntimeJarTaskNameShape(binaryName: string)
    ensures var r := RuntimeJarTaskName(binaryName);
      && (binaryName != [] ==> r[6] == UpperChar(binaryName[0]) && r[7..] == binaryName[1..])
      && ToLower(r[6..]) == ToLower(binaryName)
  {
    var r := RuntimeJarTaskName(binaryName);
    assert r[6..] == Capitalize(binaryName);
    CapitalizeKeepsLetters(binaryName);
  }

  /** A concrete runtime task name. */
  lemma RuntimeJarTaskNameExample()
    ensures RuntimeJarTaskName("mainJar") == "createMainJar"
  {
  }

  /**
   * The two tasks created for one binary never collide: the runtime
   * jar task name and the API jar task name always differ.
   */
  lemma TaskNamesDistinct(binaryName: string)
    ensures RuntimeJarTaskName(binaryName) != ApiJarTaskName(binaryName)
  {
    var n := binaryName;
    var run, api := RuntimeJarTaskName(n), ApiJarTaskName(n);
    if EndsWith(n, "Jar") {
      assert |api| == |n| + 3 && |run| == |n| + 6;
    } else if n == "jar" {
      assert run[0] == 'c' != api[0];
    } else {
      RuntimeJarTaskNameNotJarSuffixed(n);
      assert api[|api| - 3..] == "Jar";
    }
  }

  /** A binary name not ending in "Jar" (other than "jar") gives a runtime task name not ending in "Jar". */
  lemma RuntimeJarTaskNameNotJarSuffixed(n: string)
    requires !EndsWith(n, "Jar") && n != "jar"
    ensures !EndsWith(RuntimeJarTaskName(n), "Jar")
  {
    var run := RuntimeJarTaskName(n);
    var cap := Capitalize(n);
    assert run == "create" + cap;
    if |n| >= 4 {
      assert run[|run| - 3..] == n[|n| - 3..];
    } else if |n| == 3 {
      assert run[|run| - 3..] == cap;
      assert cap[0] == UpperChar(n[0]) && cap[1..] == n[1..];
      assert n == [n[0]] + n[1..];
      assert n[1..] == "ar" ==> n[0] != 'J' && n[0] != 'j';
    } else {
      assert run[|run| - 3] == "create"[|n| + 3];
    }
  }
}
