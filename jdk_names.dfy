/**
 * The display-name classifier of the JVM component rules: which of five
 * names a probed Java installation gets, from its vendor and VM system
 * properties.
 */
module JdkNames {
  import opened Strings
  import opened Jdks

  /** The only names the classifier produces. */
  const KnownNames: set<string> := {"JDK", "Apple JDK", "Oracle JDK", "IBM JDK", "OpenJDK"}

  /** The VM property is present and names an OpenJDK VM (case-sensitive). */
  predicate IsOpenJdkVm(md: Metadata): (openJdk: bool)
    ensures openJdk <==> Vm in md && exists i :: OccursAt(md[Vm], "OpenJDK", i)
  {
    Vm in md && Contains(md[Vm], "OpenJDK")
  }

  /** The vendor property is present and, lower-cased, contains `word`. */
  predicate VendorMentions(md: Metadata, word: string): (mentions: bool)
    ensures mentions <==> Vendor in md && exists i :: OccursAt(ToLower(md[Vendor]), word, i)
  {
    if Vendor in md then
      var lower := ToLower(md[Vendor]);
      assert lower == ToLower(md[Vendor]);
      Contains(lower, word)
    else false
  }

  /**
   * Reference definition of the classifier, written as the answer to
   * "which case applies" rather than as the sequence of reassignments.
   */
  function JdkName(md: Metadata): (r: string)
    ensures r in KnownNames
  {
    if Vendor !in md then "JDK"
    else if IsOpenJdkVm(md) then "OpenJDK"
    else if VendorMentions(md, "apple") then "Apple JDK"
    else if VendorMentions(md, "oracle") || VendorMentions(md, "sun") then "Oracle JDK"
    else if VendorMentions(md, "ibm") then "IBM JDK"
    else "JDK"
  }

  /**
   * computeJdkName: start from "JDK", return it at once for a missing
   * vendor, otherwise classify the lower-cased vendor and let an OpenJDK
   * VM override that choice.
   */
  method ComputeJdkName(metadata: Metadata) returns (jdkName: string)
    ensures jdkName == JdkName(metadata)
    ensures jdkName in KnownNames
  {
    jdkName := "JDK";
    if Vendor !in metadata {
      return;
    }
    var vendor := metadata[Vendor];
    vendor := ToLower(vendor);
    if Contains(vendor, "apple") {
      jdkName := "Apple JDK";
    } else if Contains(vendor, "oracle") || Contains(vendor, "sun") {
      jdkName := "Oracle JDK";
    } else if Contains(vendor, "ibm") {
      jdkName := "IBM JDK";
    }
    if Vm in metadata && Contains(metadata[Vm], "OpenJDK") {
      jdkName := "OpenJDK";
    }
  }

  /** A missing vendor yields "JDK" whatever the VM says. */
  lemma NullVendorIsPlainJdk(md: Metadata)
    requires Vendor !in md
    ensures JdkName(md) == "JDK"
    ensures JdkName(md[Vm := "OpenJDK 64-Bit Server VM"]) == "JDK"
  {
  }

  /** With a vendor present, an OpenJDK VM wins over every vendor match. */
  lemma OpenJdkVmWins(md: Metadata)
    requires Vendor in md && IsOpenJdkVm(md)
    ensures JdkName(md) == "OpenJDK"
  {
  }

  /** Each name is produced exactly in the case the source's if-chain gives it. */
  lemma JdkNameCases(md: Metadata)
    ensures JdkName(md) == "OpenJDK" <==> Vendor in md && IsOpenJdkVm(md)
    ensures JdkName(md) == "Apple JDK" <==>
      !IsOpenJdkVm(md) && VendorMentions(md, "apple")
    ensures JdkName(md) == "Oracle JDK" <==>
      !IsOpenJdkVm(md) && !VendorMentions(md, "apple") &&
      (VendorMentions(md, "oracle") || VendorMentions(md, "sun"))
    ensures JdkName(md) == "IBM JDK" <==>
      !IsOpenJdkVm(md) && !VendorMentions(md, "apple") && !VendorMentions(md, "oracle") &&
      !VendorMentions(md, "sun") && VendorMentions(md, "ibm")
    ensures JdkName(md) == "JDK" <==>
      Vendor !in md ||
      (!IsOpenJdkVm(md) && !VendorMentions(md, "apple") && !VendorMentions(md, "oracle") &&
       !VendorMentions(md, "sun") && !VendorMentions(md, "ibm"))
  {
  }

  /** The vendor is matched without regard to case: lower-casing it first changes nothing. */
  lemma VendorCaseInsensitive(md: Metadata, vendor: string)
    ensures JdkName(md[Vendor := vendor]) == JdkName(md[Vendor := ToLower(vendor)])
  {
    ToLowerIdempotent(vendor);
  }

  /** An all-capitals "SUN" vendor is recognised as Oracle's. */
  lemma UpperCaseSunVendor()
    ensures JdkName(map[Vendor := "SUN"]) == "Oracle JDK"
  {
    var lower := ToLower("SUN");
    assert lower[0] == 's' && lower[1] == 'u' && lower[2] == 'n';
    assert OccursAt(lower, "sun", 0);
  }

  /** An all-capitals "IBM" vendor is recognised as IBM's. */
  lemma UpperCaseIbmVendor()
    ensures JdkName(map[Vendor := "IBM"]) == "IBM JDK"
  {
    var lower := ToLower("IBM");
    assert lower[0] == 'i' && lower[1] == 'b' && lower[2] == 'm';
    assert OccursAt(lower, "ibm", 0);
  }

  /** The VM test is case-sensitive: a lower-case "openjdk" VM does not override the vendor. */
  lemma VmMatchIsCaseSensitive()
    ensures JdkName(map[Vendor := "IBM", Vm := "openjdk"]) == "IBM JDK"
  {
    var lower := ToLower("IBM");
    assert lower[0] == 'i' && lower[1] == 'b' && lower[2] == 'm';
    assert OccursAt(lower, "ibm", 0);
    assert "openjdk"[0] != "OpenJDK"[0];
    assert !OccursAt("openjdk", "OpenJDK", 0);
  }
}
