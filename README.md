# JVM component rules: JDK naming, task names, JDK validation, platform selection

This project models the deterministic helpers in the rule source of Gradle's JVM
component plugin (`JvmComponentPlugin.Rules`):

- the display-name classifier for a probed Java installation (`computeJdkName`);
- the names of the runtime-jar and API-jar tasks created for a jar binary;
- the validation rule that rejects two declared JDKs pointing at the same
  canonical installation path (`validateJDKs`, `indexByPath`,
  `checkDuplicateForPath`, `toImmutableJdkList`);
- the choice of target platforms for a library (`resolvePlatforms`);
- the creation of installed JDKs for declared JDKs that the probe
  recognises (`resolveJDKs`).

The collaborators these helpers call become inputs:

- the canonical-path lookup is a function `canonical: string -> string`;
- the installation probe is a function `probe: string -> Metadata` from a
  path to a map of system properties;
- the platform resolver is a function `resolve: PlatformRequirement -> P`;
- the current platform's name is a string.

A missing map key stands for a Java `null`. The declared JDKs are a sequence
in the iteration order of the `jdks` model map; "declaration order" below
means that order, which the rule source takes as given.

Modules, one per concern of the rule source:

- `Jdks` (`jdks.dfy`): the shared toolchain values, a declared JDK
  (`JdkSpec`) and the probe's metadata.
- `Strings` (`strings.dfy`): lower-casing, capitalising, `contains`,
  `endsWith` and joining. `Contains` is proved equal to "occurs at some
  index".
- `JdkNames` (`jdk_names.dfy`): the classifier. `ComputeJdkName` follows the
  source's reassignments and is proved equal to the case-by-case reference
  function `JdkName`.
- `TaskNames` (`task_names.dfy`): `ApiJarTaskName` and `RuntimeJarTaskName`.
- `JdkValidation` (`jdk_validation.dfy`): the multimap index, the error lines
  and the validation method, proved against declaration-order definitions.
- `Platforms` (`platforms.dfy`): `ResolvePlatforms`.
- `InstalledJdks` (`installed_jdks.dfy`): `ResolveJdks` and the display name.

## Model

| member | source | states |
|---|---|---|
| `JdkNames.ComputeJdkName` | subprojects/platform-jvm/src/main/java/org/gradle/jvm/plugins/JvmComponentPlugin.java:157-177 | The if-chain of reassignments computes the same name as the reference classifier, and that name is always one of the five literal names. |
| `JdkNames.JdkName` | subprojects/platform-jvm/src/main/java/org/gradle/jvm/plugins/JvmComponentPlugin.java:157-177 | The classifier only ever yields "JDK", "Apple JDK", "Oracle JDK", "IBM JDK" or "OpenJDK". |
| `JdkNames.IsOpenJdkVm` | subprojects/platform-jvm/src/main/java/org/gradle/jvm/plugins/JvmComponentPlugin.java:172-173 | The VM test holds exactly when the VM property is present and "OpenJDK" occurs in it at some index, with case kept. |
| `JdkNames.VendorMentions` | subprojects/platform-jvm/src/main/java/org/gradle/jvm/plugins/JvmComponentPlugin.java:163-170 | A vendor test holds exactly when the vendor is present and the word occurs at some index of the lower-cased vendor. |
| `JdkNames.NullVendorIsPlainJdk` | subprojects/platform-jvm/src/main/java/org/gradle/jvm/plugins/JvmComponentPlugin.java:157-161 | A missing vendor yields "JDK", even when the VM is an OpenJDK VM, because the method returns before the VM test. |
| `JdkNames.OpenJdkVmWins` | subprojects/platform-jvm/src/main/java/org/gradle/jvm/plugins/JvmComponentPlugin.java:172-176 | With a vendor present, a VM string containing "OpenJDK" gives "OpenJDK" whatever the vendor. |
| `JdkNames.JdkNameCases` | subprojects/platform-jvm/src/main/java/org/gradle/jvm/plugins/JvmComponentPlugin.java:158-176 | For each of the five names, an if-and-only-if condition for when it is produced. The priority is apple, then oracle or sun, then ibm, all overridden by an OpenJDK VM. |
| `JdkNames.VendorCaseInsensitive` | subprojects/platform-jvm/src/main/java/org/gradle/jvm/plugins/JvmComponentPlugin.java:163-171 | Replacing the vendor by its lower-cased form never changes the name, so vendor matching ignores case. |
| `JdkNames.UpperCaseSunVendor` | subprojects/platform-jvm/src/main/java/org/gradle/jvm/plugins/JvmComponentPlugin.java:163-168 | The vendor "SUN" is classified as "Oracle JDK". |
| `JdkNames.UpperCaseIbmVendor` | subprojects/platform-jvm/src/main/java/org/gradle/jvm/plugins/JvmComponentPlugin.java:163-170 | The vendor "IBM" is classified as "IBM JDK". |
| `JdkNames.VmMatchIsCaseSensitive` | subprojects/platform-jvm/src/main/java/org/gradle/jvm/plugins/JvmComponentPlugin.java:172-175 | A lower-case "openjdk" VM does not override the vendor's name, because the VM test is case-sensitive. |
| `Strings.Contains` | subprojects/platform-jvm/src/main/java/org/gradle/jvm/plugins/JvmComponentPlugin.java:165-173 | `contains` holds exactly when the substring occurs at some index of the string. |
| `Strings.ToLower` | subprojects/platform-jvm/src/main/java/org/gradle/jvm/plugins/JvmComponentPlugin.java:163 | Lower-casing keeps the length and lower-cases each character in place. |
| `Strings.ToLowerIdempotent` | subprojects/platform-jvm/src/main/java/org/gradle/jvm/plugins/JvmComponentPlugin.java:163 | Lower-casing twice is the same as lower-casing once. |
| `Strings.CapitalizeKeepsLetters` | subprojects/platform-jvm/src/main/java/org/gradle/jvm/plugins/JvmComponentPlugin.java:239 | Capitalising keeps the length, changes nothing up to case, and is idempotent. |
| `Strings.Capitalize` | subprojects/platform-jvm/src/main/java/org/gradle/jvm/plugins/JvmComponentPlugin.java:239 | Capitalising keeps the length, upper-cases the first character and keeps every other character. |
| `Strings.EndsWith` | subprojects/platform-jvm/src/main/java/org/gradle/jvm/plugins/JvmComponentPlugin.java:279 | `endsWith` holds exactly when the string is some prefix followed by the suffix. |
| `Strings.Join` | subprojects/platform-jvm/src/main/java/org/gradle/jvm/plugins/JvmComponentPlugin.java:118 | Joining no parts gives the empty string and one part gives that part. With several parts the result starts with the first part and the separator. |
| `Strings.JoinLength` | subprojects/platform-jvm/src/main/java/org/gradle/jvm/plugins/JvmComponentPlugin.java:289 | The length of a join is the parts' total length plus the separator's length once per gap between neighbouring parts. |
| `Strings.JoinAppend` | subprojects/platform-jvm/src/main/java/org/gradle/jvm/plugins/JvmComponentPlugin.java:118 | Joining one more part gives the earlier join, then the separator, then that part. So the content of a join is fixed part by part. |
| `TaskNames.ApiJarTaskName` | subprojects/platform-jvm/src/main/java/org/gradle/jvm/plugins/JvmComponentPlugin.java:277-283 | The API task name always ends with "ApiJar". It is 3 characters longer than the binary name when a "Jar" suffix was dropped, and 6 longer otherwise. |
| `TaskNames.ApiJarTaskNameRoundTrip` | subprojects/platform-jvm/src/main/java/org/gradle/jvm/plugins/JvmComponentPlugin.java:277-283 | Dropping "ApiJar" from the task name and restoring the removed "Jar", if any, gives back the binary name. So the rest of the name is kept exactly. |
| `TaskNames.ApiJarTaskNameExamples` | subprojects/platform-jvm/src/main/java/org/gradle/jvm/plugins/JvmComponentPlugin.java:279-282 | "mainJar" gives "mainApiJar", "main" gives "mainApiJar", and "JarJar" gives "JarApiJar": only one "Jar" suffix is removed. |
| `TaskNames.ApiJarTaskNameNotInjective` | subprojects/platform-jvm/src/main/java/org/gradle/jvm/plugins/JvmComponentPlugin.java:277-283 | Two different binary names can share one API task name. |
| `TaskNames.RuntimeJarTaskName` | subprojects/platform-jvm/src/main/java/org/gradle/jvm/plugins/JvmComponentPlugin.java:239 | The runtime task name starts with "create" and is 6 characters longer than the binary name. |
| `TaskNames.RuntimeJarTaskNameShape` | subprojects/platform-jvm/src/main/java/org/gradle/jvm/plugins/JvmComponentPlugin.java:239 | After "create" comes the binary name with its first character upper-cased and the rest unchanged. It equals the binary name up to case. |
| `TaskNames.RuntimeJarTaskNameExample` | subprojects/platform-jvm/src/main/java/org/gradle/jvm/plugins/JvmComponentPlugin.java:239 | "mainJar" gives "createMainJar". |
| `TaskNames.TaskNamesDistinct` | subprojects/platform-jvm/src/main/java/org/gradle/jvm/plugins/JvmComponentPlugin.java:239-258 | The two tasks created for one binary never get the same name. |
| `Platforms.ResolvePlatforms` | subprojects/platform-jvm/src/main/java/org/gradle/jvm/plugins/JvmComponentPlugin.java:201-214 | An empty requirement list gives exactly the resolution of the current-platform requirement. Otherwise there is one resolved platform per requirement, in the same order. |
| `Platforms.Collect` | subprojects/platform-jvm/src/main/java/org/gradle/jvm/plugins/JvmComponentPlugin.java:208-213 | Collecting keeps the length and applies the transformer element by element. |
| `Platforms.ResolvePlatformsAppend` | subprojects/platform-jvm/src/main/java/org/gradle/jvm/plugins/JvmComponentPlugin.java:208-213 | Adding a requirement at the end adds its resolution at the end. |
| `JdkValidation.ToImmutableJdkList` | subprojects/platform-jvm/src/main/java/org/gradle/jvm/plugins/JvmComponentPlugin.java:312-321 | The copied list holds the declared JDKs, all of them, in order. |
| `JdkValidation.Get` | subprojects/platform-jvm/src/main/java/org/gradle/jvm/plugins/JvmComponentPlugin.java:286 | `index.get(path)` gives the values stored under the key, and the empty list for a key with no values. |
| `JdkValidation.Put` | subprojects/platform-jvm/src/main/java/org/gradle/jvm/plugins/JvmComponentPlugin.java:299 | After one builder step of `Multimaps.index`, the key has values. |
| `JdkValidation.PutGet` | subprojects/platform-jvm/src/main/java/org/gradle/jvm/plugins/JvmComponentPlugin.java:299 | One put appends the JDK to the key's values and adds the key as the last key when it is new. Every other key's values are unchanged. |
| `JdkValidation.IndexByPath` | subprojects/platform-jvm/src/main/java/org/gradle/jvm/plugins/JvmComponentPlugin.java:298-310 | The multimap never has more keys than there are declared JDKs. |
| `JdkValidation.IndexByPathCorrect` | subprojects/platform-jvm/src/main/java/org/gradle/jvm/plugins/JvmComponentPlugin.java:298-310 | The multimap has distinct keys: exactly the canonical paths, in order of first declaration. Under each path are exactly the JDKs with that path, in declaration order. |
| `JdkValidation.IndexByPathKeys` | subprojects/platform-jvm/src/main/java/org/gradle/jvm/plugins/JvmComponentPlugin.java:298-310 | The multimap's keys are distinct and are exactly the canonical paths of the declared JDKs. |
| `JdkValidation.IndexByPathGroups` | subprojects/platform-jvm/src/main/java/org/gradle/jvm/plugins/JvmComponentPlugin.java:298-310 | Under each path are exactly the JDKs with that canonical path, in declaration order. |
| `JdkValidation.IndexByPathOrder` | subprojects/platform-jvm/src/main/java/org/gradle/jvm/plugins/JvmComponentPlugin.java:298-310 | The keys come in the order in which their paths were first declared. |
| `JdkValidation.CheckDuplicateForPath` | subprojects/platform-jvm/src/main/java/org/gradle/jvm/plugins/JvmComponentPlugin.java:285-296 | One error line is appended when the path has more than one JDK, and nothing otherwise. |
| `JdkValidation.ErrorLine` | subprojects/platform-jvm/src/main/java/org/gradle/jvm/plugins/JvmComponentPlugin.java:288-294 | An error line starts with "   - " and ends with " are both pointing to the same JDK installation path: " and the path. |
| `JdkValidation.Names` | subprojects/platform-jvm/src/main/java/org/gradle/jvm/plugins/JvmComponentPlugin.java:289-293 | Transforming the group by `getName` keeps its length and gives the name of the JDK at each position. |
| `JdkValidation.LineFor` | subprojects/platform-jvm/src/main/java/org/gradle/jvm/plugins/JvmComponentPlugin.java:286-294 | A path contributes at most one line; it contributes one exactly when more than one JDK is indexed under it, and that line is the error line of its group. |
| `JdkValidation.ErrorLines` | subprojects/platform-jvm/src/main/java/org/gradle/jvm/plugins/JvmComponentPlugin.java:114-116 | Checking the keys gives at most one line per key. |
| `JdkValidation.ErrorLinesPerKey` | subprojects/platform-jvm/src/main/java/org/gradle/jvm/plugins/JvmComponentPlugin.java:114-116 | Checking distinct keys gives one line per key holding several JDKs. Every line is the error line of such a key. |
| `JdkValidation.ValidateJdks` | subprojects/platform-jvm/src/main/java/org/gradle/jvm/plugins/JvmComponentPlugin.java:110-120 | The loop over the keys collects the error lines. The method fails with the aggregated message exactly when there is a line. |
| `JdkValidation.ValidationCorrect` | subprojects/platform-jvm/src/main/java/org/gradle/jvm/plugins/JvmComponentPlugin.java:110-120 | Validation fails iff two declared JDKs share a canonical path. There is one line per shared path, never one per pair. Each line names every JDK at its path, in declaration order. The message is "Duplicate JDK declared:\n" and the lines joined by "\n". |
| `JdkValidation.ValidationFails` | subprojects/platform-jvm/src/main/java/org/gradle/jvm/plugins/JvmComponentPlugin.java:110-120 | Validation fails iff two declared JDKs share a canonical path; both directions. |
| `JdkValidation.ValidationLines` | subprojects/platform-jvm/src/main/java/org/gradle/jvm/plugins/JvmComponentPlugin.java:110-120 | There is exactly one error line per shared path, and each line is the error line naming every JDK at that path. |
| `JdkValidation.ErrorLinesInOrder` | subprojects/platform-jvm/src/main/java/org/gradle/jvm/plugins/JvmComponentPlugin.java:114-116 | The lines come in key order: line t is the error line of the t-th key that holds several JDKs. |
| `JdkValidation.ValidationLineOrder` | subprojects/platform-jvm/src/main/java/org/gradle/jvm/plugins/JvmComponentPlugin.java:110-120 | Line t of the message is the line of the t-th shared path, and the shared paths are listed in order of their first declaration. |
| `JdkValidation.DuplicateMessage` | subprojects/platform-jvm/src/main/java/org/gradle/jvm/plugins/JvmComponentPlugin.java:118 | The message starts with "Duplicate JDK declared:\n". With one line it is that prefix followed by the line. |
| `JdkValidation.DuplicateMessageLength` | subprojects/platform-jvm/src/main/java/org/gradle/jvm/plugins/JvmComponentPlugin.java:118 | The message's length is 24 for the prefix, plus the lines' total length, plus one per gap between neighbouring lines. |
| `JdkValidation.DuplicateMessageAppend` | subprojects/platform-jvm/src/main/java/org/gradle/jvm/plugins/JvmComponentPlugin.java:118 | One more error line extends the message by a newline and that line. With the one-line case of `DuplicateMessage`, this fixes the whole message: the prefix, then the lines in order, separated by newlines. |
| `JdkValidation.Validation` | subprojects/platform-jvm/src/main/java/org/gradle/jvm/plugins/JvmComponentPlugin.java:110-120 | Zero or one declared JDK always passes. A failure carries a message starting with "Duplicate JDK declared:\n". |
| `JdkValidation.TwoJdksOnOnePath` | subprojects/platform-jvm/src/main/java/org/gradle/jvm/plugins/JvmComponentPlugin.java:285-294 | jdk1 and jdk2 at /usr/lib/jvm/8 give exactly the message with one line naming "jdk1, jdk2" and the path. |
| `JdkValidation.ThreeJdksOnOnePath` | subprojects/platform-jvm/src/main/java/org/gradle/jvm/plugins/JvmComponentPlugin.java:285-294 | Three JDKs at one path give a single line naming "a, b, c". |
| `InstalledJdks.ResolveJdks` | subprojects/platform-jvm/src/main/java/org/gradle/jvm/plugins/JvmComponentPlugin.java:133-148 | The loop creates exactly the installed JDKs of the reference filter, in declaration order. |
| `InstalledJdks.VersionKnown` | subprojects/platform-jvm/src/main/java/org/gradle/jvm/plugins/JvmComponentPlugin.java:137 | The filter accepts a missing version, and accepts a present version exactly when it is not UNKNOWN. |
| `InstalledJdks.InstalledFor` | subprojects/platform-jvm/src/main/java/org/gradle/jvm/plugins/JvmComponentPlugin.java:138-145 | The created entry has the declared JDK's name and its path as Java home. Its metadata is the probe result for that Java home. |
| `InstalledJdks.Installed` | subprojects/platform-jvm/src/main/java/org/gradle/jvm/plugins/JvmComponentPlugin.java:135-147 | There are never more installed JDKs than declared ones. Every installed JDK has a known version, and its metadata is the probe result for its Java home. |
| `InstalledJdks.InstalledAppend` | subprojects/platform-jvm/src/main/java/org/gradle/jvm/plugins/JvmComponentPlugin.java:135-147 | One more declared JDK adds at most its own installed JDK, at the end. |
| `InstalledJdks.InstalledMembership` | subprojects/platform-jvm/src/main/java/org/gradle/jvm/plugins/JvmComponentPlugin.java:135-147 | An installed JDK exists iff some declared JDK has a version that is not UNKNOWN. The installed JDK carries that JDK's name, its path as Java home, and its probed metadata. |
| `InstalledJdks.InstalledCount` | subprojects/platform-jvm/src/main/java/org/gradle/jvm/plugins/JvmComponentPlugin.java:135-147 | There are never more installed JDKs than declared ones. When every version is known, there is one per declared JDK, in order. |
| `InstalledJdks.MissingVersionIsKept` | subprojects/platform-jvm/src/main/java/org/gradle/jvm/plugins/JvmComponentPlugin.java:137 | Metadata without a version is not filtered out, because `UNKNOWN.equals(null)` is false. |
| `InstalledJdks.UnknownVersionIsDropped` | subprojects/platform-jvm/src/main/java/org/gradle/jvm/plugins/JvmComponentPlugin.java:137 | A version equal to UNKNOWN filters the declared JDK out. |
| `InstalledJdks.DisplayName` | subprojects/platform-jvm/src/main/java/org/gradle/jvm/plugins/JvmComponentPlugin.java:150-154 | The display name is one of the five classifier names, a space, and the major version. It is "JDK" and the version when the vendor is missing, and "OpenJDK" and the version when a vendor is present and the VM is an OpenJDK VM. |
| `InstalledJdks.InstalledDisplayName` | subprojects/platform-jvm/src/main/java/org/gradle/jvm/plugins/JvmComponentPlugin.java:135-154 | Each declared JDK with a known version has an installed JDK. Its display name is the classifier name of its probed metadata and the major version, so "JDK" and the version without a vendor. |
| `InstalledJdks.InstalledEntryDisplayName` | subprojects/platform-jvm/src/main/java/org/gradle/jvm/plugins/JvmComponentPlugin.java:135-154 | Every installed JDK comes from a declared JDK, and its display name is the classifier name of that JDK's probed metadata and the major version. |

## Left out

- `MutableModelNode` (subprojects/model-core/src/main/java/org/gradle/model/internal/core/MutableModelNode.java) is an interface that declares methods but implements none. The model graph behind it (node lifecycle, rule ordering, views, links) is not part of this model.
- File-system access is not modelled. This covers the canonical-path lookup and its `IOException` path, and the `File` objects for jar, class and resource directories. The lookup is the input `canonical`.
- The installation probe is not modelled. This covers `JavaInstallationProbe.getMetadata` and `current()`. The probe is the input `probe`, and calling it twice with one path gives the same metadata. `JavaInstallationProbe` is not part of this model, so its `UNKNOWN` sentinel is taken to be "unknown"; no property depends on that value.
- The currentGradleJDK entry created by the `installedJdks` model rule is not modelled. Nor is what `ModelMap.create` does with a declared JDK of the same name, because `ModelMap` is not part of this model.
- `JavaVersion.toVersion` and `getMajorVersion` are not modelled. `InstalledJdks.DisplayName` takes the major version as an input; a missing version, which would reach `toVersion(null)`, is not modelled.
- `ModelMap.create` runs its configuration action later. `ResolveJdks` returns the configured entries directly, so that deferral is not modelled.
- `PlatformResolvers.resolve` is the input `resolve`, so a failing resolution is not modelled. `DefaultJavaPlatform.current()` is the input `currentPlatformName`.
- `ToImmutableJdkList` treats `afterEach` as calling the action once per element, in iteration order. When the model map actually fires those actions is not modelled.
- Service lookups, type registration, task wiring (`from`, `dependsOn`, inputs) and the setter calls in the `Action` bodies do not compute anything these helpers use. They are not modelled.
- `BinaryNamingScheme` and `DefaultBinaryNamingScheme` are library code that is not visible. The binary names are therefore given strings.
- `Strings.ToLower`, `Strings.Capitalize`: the model fixes a locale in which ASCII letters change case as in `Locale.ROOT`, and leaves other characters unchanged. `vendor.toLowerCase()` uses the default locale, and in the Turkish and Azerbaijani locales "I" becomes a dotless "ı"; there a vendor "IBM Corporation" gives "JDK", so `JdkNames.UpperCaseIbmVendor` and the "IBM JDK" case of `JdkNames.JdkName` hold only under the fixed locale. Unicode case mapping and `Character.toTitleCase` beyond ASCII are not modelled.
- `CheckDuplicateForPath` returns the extended error list instead of appending to a shared `ArrayList`. The list is local to the validation rule, so nothing else observes the aliasing.
