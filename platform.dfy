/**
 * What the drivers share about the platform: the byte type and the
 * platform check. The build target is fixed when the program is compiled;
 * the drivers receive the answer as a boolean.
 */
module Platform {

  /** A `u8`: the unit both drivers read from their devices. */
  type Byte = b: nat | b < 256

  /** The three `cfg!` facts of the build: architecture, OS and C runtime. */
  datatype BuildTarget = BuildTarget(arch: string, os: string, env: string)

  /** `is_rpi()`: true exactly for a 32-bit ARM Linux build against glibc. */
  predicate IsRpi(t: BuildTarget)
  {
    t.arch == "arm" && t.os == "linux" && t.env == "gnu"
  }

  /** Any one of the three facts failing is enough to select simulation. */
  lemma IsRpiNeedsAllThree(t: BuildTarget)
    ensures IsRpi(t) <==> t == BuildTarget("arm", "linux", "gnu")
  {
  }

  /** A 64-bit build for the same board reports `aarch64` and so runs simulated. */
  lemma Aarch64IsSimulated()
    ensures !IsRpi(BuildTarget("aarch64", "linux", "gnu"))
  {
  }
}
