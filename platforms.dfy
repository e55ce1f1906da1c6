/**
 * Target-platform selection for a JVM library: the library's declared
 * platform requirements, or the current Java platform when it declares
 * none, each resolved through the platform resolvers. The resolvers and
 * the current platform's name are inputs of the model.
 */
module Platforms {

  /** A request for a platform by name (DefaultPlatformRequirement). */
  datatype PlatformRequirement = PlatformRequirement(platformName: string)

  /** CollectionUtils.collect: `f` applied to every element, in order. */
  function Collect<A, B>(xs: seq<A>, f: A -> B): (r: seq<B>)
    ensures |r| == |xs|
    ensures forall i :: 0 <= i < |xs| ==> r[i] == f(xs[i])
  {
    if xs == [] then [] else [f(xs[0])] + Collect(xs[1..], f)
  }

  /**
   * resolvePlatforms: an empty requirement list is replaced by a single
   * requirement naming the current platform; the list is then resolved
   * element by element.
   */
  function ResolvePlatforms<P>(targetPlatforms: seq<PlatformRequirement>, currentPlatformName: string,
                               resolve: PlatformRequirement -> P): (r: seq<P>)
    ensures |targetPlatforms| == 0 ==> r == [resolve(PlatformRequirement(currentPlatformName))]
    ensures |targetPlatforms| > 0 ==> |r| == |targetPlatforms|
    ensures forall i :: 0 <= i < |targetPlatforms| ==> r[i] == resolve(targetPlatforms[i])
  {
    var requirements := if |targetPlatforms| == 0
      then [PlatformRequirement(currentPlatformName)]
      else targetPlatforms;
    Collect(requirements, resolve)
  }

  /** Adding a requirement at the end adds its resolution at the end. */
  lemma ResolvePlatformsAppend<P>(targetPlatforms: seq<PlatformRequirement>, extra: PlatformRequirement,
                                  currentPlatformName: string, resolve: PlatformRequirement -> P)
    requires |targetPlatforms| > 0
    ensures ResolvePlatforms(targetPlatforms + [extra], currentPlatformName, resolve)
         == ResolvePlatforms(targetPlatforms, currentPlatformName, resolve) + [resolve(extra)]
  {
  }
}
