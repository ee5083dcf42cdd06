/** The engine limits the formats read, and the plugin limits derived from them. */
module ResourceLimits {
  import opened Buffers

  /** Engine limits are validated as non-negative safe integers. */
  type SafeNat = x: int | 0 <= x <= MAX_SAFE_INTEGER

  datatype EngineLimits = EngineLimits(
    maxInputBytes: SafeNat,
    maxOutputBytes: SafeNat,
    maxFrameBytes: SafeNat,
    maxFrames: SafeNat)

  /** A plugin may receive external input or the output of the plugin before it. */
  function PluginInputLimit(limits: EngineLimits): SafeNat { Max(limits.maxInputBytes, limits.maxOutputBytes) }

  function PluginOutputLimit(limits: EngineLimits): SafeNat { limits.maxOutputBytes }
}
