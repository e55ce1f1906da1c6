/**
 * The toolchain values the JVM component rules share: a declared JDK and
 * the metadata the installation probe reports for a path.
 */
module Jdks {

  /** A declared JDK: its name in the model map and its installation path. */
  datatype JdkSpec = JdkSpec(name: string, path: string)

  /** The keys of the probe's metadata that the rules read. */
  datatype SysProp = Version | Vendor | Vm

  /** Probe result; a key that is not in the map is a missing (null) property. */
  type Metadata = map<SysProp, string>
}
