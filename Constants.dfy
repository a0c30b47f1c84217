/** Constants shared by every part of the cage builder (include/constant.h). */
module Constants {

  /** Growth step of every slot-based container (List_t, Graph_t, Shell_t, mocs). */
  const REALLOCSIZE: nat := 4

  /** The value that marks a free slot in a list and an unused vertex. */
  const FREE: int := -1

  // Atom flags of the envelope and the cages; their numeric order matters.
  const NOT_DEF_F: int := -1
  const SHELL_F: int := 0
  const LINKABLE_F: int := 1
  const CYCLE_F: int := 2
  const HYDRO_PATTERN_F: int := 3

  /** Number of the aromatic-ring pattern in a path record. */
  const CYCLE_PATTERN: int := 1

  /** Number of positions kept per path column. */
  const NUMBER_POSITION_AX1E3: int := 2

  // Voxel grid: GRID_SIZE points per axis, starting at START_GRID, LENGTH_GRID apart.
  const GRID_SIZE: nat := 51
  const START_GRID: real := -30.0
  const LENGTH_GRID: real := (-START_GRID * 2.0) / 51.0

  // Distances in ångström.
  const DIST_SIMPLE: real := 1.5
  const MINDIS: real := 0.75

  /** How close a new pattern atom may come to an atom of the cage. */
  const DIST_GAP_CAGE: real := DIST_SIMPLE / 2.0 + MINDIS / 2.0 - 0.0001

  /** The bond length between a ring atom and the neighbour added outside the ring. */
  const SIMPLE_CYCLE: real := 1.4

  /** An atom closer than this to a new ring neighbour is merged into it. */
  const MINDIS_CYCLE: real := 0.7

  /** A neighbour farther than this does not belong to the atom's aromatic ring. */
  const MAXDIS_CYCLE: real := 1.7

  /** Radius of the sphere each substrate atom occupies in the voxel grid. */
  const DIST_GAP_SUBSTRATE: real := 1.8
}
