/** The editor's fixed capacities (the defines at the top of global.h). */
module Global {
  const MAX_EMITTERS: nat := 8
  const MAX_PARTICLES: nat := 2000
  const MAX_COLORS: nat := 16
  const MAX_FORCES: nat := 4
  const MAX_NAME_LEN: nat := 32
}
