/** The plugin's configuration record (UTimeVerificationConfig) as a plain value. */
module TimeVerificationConfig {

  /** C++ `int32`. */
  type int32 = x: int | -0x8000_0000 <= x < 0x8000_0000

  datatype Option<+T> = None | Some(value: T)

  /** `bEnableTimeVerification` (false unless configured) and the cutoff date fields,
      which have no default and may hold any 32-bit value. */
  datatype VerificationConfig = VerificationConfig(enabled: bool, year: int32, month: int32, day: int32)

  /** The configuration object as the engine hands it out: it may be missing. */
  type ConfigLookup = Option<VerificationConfig>

  /** Whether the checks run at all. */
  predicate IsEnabled(config: ConfigLookup) {
    config.Some? && config.value.enabled
  }
}
