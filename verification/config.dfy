/** The compile-time settings of config.hh (the testing configuration). */
module Config {
  const ImageWidth: nat := 640
  const ImageHeight: nat := 360
  const SamplesPerPixel: nat := 256
  const Framerate: nat := 30
  const SamplesPerMotionBlurStep: nat := 8
}
