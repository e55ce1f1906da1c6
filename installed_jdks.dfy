/**
 * Installed-JDK discovery of the JVM component rules: every declared JDK
 * whose probed version is not the UNKNOWN sentinel becomes an installed
 * JDK of the same name, with its Java home set to the declared path.
 * The installation probe is the input `probe`.
 */
module InstalledJdks {
  import opened Jdks
  import opened JdkNames

  /**
   * The probe's sentinel for a version it could not determine.
   * JavaInstallationProbe is not part of this model; none of the properties
   * below depend on the sentinel's value.
   */
  const UNKNOWN: string := "unknown"

  /**
   * The filter of resolveJDKs: `!UNKNOWN.equals(version)`, which also
   * holds when the metadata has no version at all (a null version).
   */
  predicate VersionKnown(metadata: Metadata): (known: bool)
    ensures Version !in metadata ==> known
    ensures Version in metadata ==> (known <==> metadata[Version] != UNKNOWN)
  {
    !(Version in metadata && metadata[Version] == UNKNOWN)
  }

  /**
   * An installed JDK as its creation action configures it: the name of the
   * declared JDK, its path as Java home, and the probe's metadata for it.
   */
  datatype InstalledJdk = InstalledJdk(name: string, javaHome: string, metadata: Metadata)

  /** The installed JDK created for `jdk`. */
  function InstalledFor(jdk: JdkSpec, probe: string -> Metadata): (installed: InstalledJdk)
    ensures installed.name == jdk.name && installed.javaHome == jdk.path
    ensures installed.metadata == probe(installed.javaHome)
  {
    InstalledJdk(jdk.name, jdk.path, probe(jdk.path))
  }

  /** Reference definition: the declared JDKs with a known version, in order, as installed JDKs. */
  function Installed(jdks: seq<JdkSpec>, probe: string -> Metadata): (installed: seq<InstalledJdk>)
    ensures |installed| <= |jdks|
    ensures forall k :: 0 <= k < |installed| ==>
      VersionKnown(installed[k].metadata) && installed[k].metadata == probe(installed[k].javaHome)
  {
    if jdks == [] then []
    else (if VersionKnown(probe(jdks[0].path)) then [InstalledFor(jdks[0], probe)] else [])
         + Installed(jdks[1..], probe)
  }

  /** resolveJDKs: walk the declared JDKs and create an entry for each one the probe recognises. */
  method ResolveJdks(jdks: seq<JdkSpec>, probe: string -> Metadata) returns (installedJdks: seq<InstalledJdk>)
    ensures installedJdks == Installed(jdks, probe)
  {
    installedJdks := [];
    var i := 0;
    while i < |jdks|
      invariant 0 <= i <= |jdks|
      invariant installedJdks == Installed(jdks[..i], probe)
    {
      var jdk := jdks[i];
      var metadata := probe(jdk.path);
      InstalledAppend(jdks[..i], jdk, probe);
      assert jdks[..i + 1] == jdks[..i] + [jdk];
      if VersionKnown(metadata) {
        installedJdks := installedJdks + [InstalledFor(jdk, probe)];
      }
      i := i + 1;
    }
    assert jdks[..i] == jdks;
  }

  /** One more declared JDK adds at most its own entry, at the end. */
  lemma {:induction false} InstalledAppend(jdks: seq<JdkSpec>, jdk: JdkSpec, probe: string -> Metadata)
    ensures Installed(jdks + [jdk], probe)
         == Installed(jdks, probe) + (if VersionKnown(probe(jdk.path)) then [InstalledFor(jdk, probe)] else [])
  {
    if jdks != [] {
      assert (jdks + [jdk])[1..] == jdks[1..] + [jdk];
      InstalledAppend(jdks[1..], jdk, probe);
    }
  }

  /**
   * An installed JDK is created exactly for each declared JDK whose version
   * is known, carrying that JDK's name and path and the probe's metadata.
   */
  lemma {:induction false} InstalledMembership(jdks: seq<JdkSpec>, probe: string -> Metadata, e: InstalledJdk)
    ensures e in Installed(jdks, probe) <==>
      exists i :: 0 <= i < |jdks| && VersionKnown(probe(jdks[i].path)) && e == InstalledFor(jdks[i], probe)
  {
    if jdks != [] {
      InstalledMembership(jdks[1..], probe, e);
      if exists i :: 0 <= i < |jdks| && VersionKnown(probe(jdks[i].path)) && e == InstalledFor(jdks[i], probe) {
        var i :| 0 <= i < |jdks| && VersionKnown(probe(jdks[i].path)) && e == InstalledFor(jdks[i], probe);
        if i > 0 {
          assert jdks[1..][i - 1] == jdks[i];
        }
      }
      if e in Installed(jdks[1..], probe) {
        var i :| 0 <= i < |jdks| - 1 && VersionKnown(probe(jdks[1..][i].path)) && e == InstalledFor(jdks[1..][i], probe);
        assert jdks[i + 1] == jdks[1..][i];
      }
    }
  }

  /** Never more installed JDKs than declared ones; exactly as many when every version is known. */
  lemma {:induction false} InstalledCount(jdks: seq<JdkSpec>, probe: string -> Metadata)
    ensures |Installed(jdks, probe)| <= |jdks|
    ensures (forall i :: 0 <= i < |jdks| ==> VersionKnown(probe(jdks[i].path))) ==>
      |Installed(jdks, probe)| == |jdks| &&
      forall i :: 0 <= i < |jdks| ==> Installed(jdks, probe)[i] == InstalledFor(jdks[i], probe)
  {
    if jdks != [] {
      InstalledCount(jdks[1..], probe);
      if forall i :: 0 <= i < |jdks| ==> VersionKnown(probe(jdks[i].path)) {
        assert forall i :: 0 <= i < |jdks| - 1 ==> jdks[1..][i] == jdks[i + 1];
      }
    }
  }

  /** A probe result without any version is not filtered out. */
  lemma MissingVersionIsKept(jdk: JdkSpec, probe: string -> Metadata)
    requires Version !in probe(jdk.path)
    ensures Installed([jdk], probe) == [InstalledFor(jdk, probe)]
  {
  }

  /** Only a version equal to the UNKNOWN sentinel filters a declared JDK out. */
  lemma UnknownVersionIsDropped(jdk: JdkSpec, probe: string -> Metadata)
    requires Version in probe(jdk.path) && probe(jdk.path)[Version] == UNKNOWN
    ensures Installed([jdk], probe) == []
  {
  }

  /**
   * configureInstalledJdk's display name: the classifier's name for the
   * metadata, a space, and the major version. Parsing the version string
   * into a JavaVersion is not part of this model, so the major version is
   * an input.
   */
  function DisplayName(jdk: InstalledJdk, majorVersion: string): (r: string)
    ensures exists name :: name in KnownNames && r == name + " " + majorVersion
    ensures Vendor !in jdk.metadata ==> r == "JDK " + majorVersion
    ensures Vendor in jdk.metadata && IsOpenJdkVm(jdk.metadata) ==> r == "OpenJDK " + majorVersion
  {
    var jdkName := JdkName(jdk.metadata);
    jdkName + " " + majorVersion
  }

  /**
   * Every installed JDK that resolveJDKs creates for a declared JDK is shown
   * with the classifier's name for that JDK's probed metadata; a probe
   * without a vendor shows it as a plain "JDK".
   */
  lemma InstalledDisplayName(jdks: seq<JdkSpec>, probe: string -> Metadata, i: nat, majorVersion: string)
    requires i < |jdks| && VersionKnown(probe(jdks[i].path))
    ensures var e := InstalledFor(jdks[i], probe);
      && e in Installed(jdks, probe)
      && DisplayName(e, majorVersion) == JdkName(probe(jdks[i].path)) + " " + majorVersion
      && (Vendor !in probe(jdks[i].path) ==> DisplayName(e, majorVersion) == "JDK " + majorVersion)
  {
    InstalledMembership(jdks, probe, InstalledFor(jdks[i], probe));
  }

  /** Conversely, every created entry is displayed with the name of the declared JDK it came from. */
  lemma InstalledEntryDisplayName(jdks: seq<JdkSpec>, probe: string -> Metadata, e: InstalledJdk, majorVersion: string)
    returns (i: nat)
    requires e in Installed(jdks, probe)
    ensures i < |jdks| && e == InstalledFor(jdks[i], probe)
    ensures DisplayName(e, majorVersion) == JdkName(probe(jdks[i].path)) + " " + majorVersion
  {
    InstalledMembership(jdks, probe, e);
    i :| 0 <= i < |jdks| && VersionKnown(probe(jdks[i].path)) && e == InstalledFor(jdks[i], probe);
  }
}
