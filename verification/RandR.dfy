/**
 Values exchanged with a RandR server: identifiers, modes, rotations, transforms and
 CRTC configurations, and the two lookups every part of the planner shares.
 */
module RandR {

  datatype Option<+T> = None | Some(value: T)

  /** Server resource identifiers; the protocol's `None` is 0. */
  type Xid = nat
  const NO_XID: Xid := 0

  /** The low four rotation bits: exactly one of the four turns, or anything else. */
  datatype Direction = Rotate0 | Rotate90 | Rotate180 | Rotate270 | NoSingleTurn
  datatype Rotation = Rotation(direction: Direction, reflectX: bool, reflectY: bool)
  const UPRIGHT := Rotation(Rotate0, false, false)

  datatype Mode = Mode(id: Xid, width: nat, height: nat)

  /** A 3x3 matrix of 16.16 fixed-point numbers. */
  datatype Matrix = Matrix(m00: int, m01: int, m02: int,
                           m10: int, m11: int, m12: int,
                           m20: int, m21: int, m22: int)
  datatype Transform = Transform(matrix: Matrix, filter: string, params: seq<int>)
  const IDENTITY := Transform(Matrix(0x1_0000, 0, 0, 0, 0x1_0000, 0, 0, 0, 0x1_0000), "", [])

  datatype Panning = Panning(left: int, top: int, width: int, height: int)

  /** What one CRTC is set to: position, mode, rotation and the outputs it drives. */
  datatype CrtcConfig = CrtcConfig(x: int, y: int, mode: Xid, rotation: Rotation, outputs: seq<Xid>)
  const OFF := CrtcConfig(0, 0, NO_XID, UPRIGHT, [])

  /** The first reported mode with the given identifier. */
  function FindMode(modes: seq<Mode>, id: Xid): (found: Option<Mode>)
    ensures found.Some? ==> found.value in modes && found.value.id == id
    ensures found.None? ==> forall m :: m in modes ==> m.id != id
  {
    if modes == [] then None
    else if modes[0].id == id then Some(modes[0])
    else FindMode(modes[1..], id)
  }

  /** The position of the first occurrence of `x`, or the length when it does not occur. */
  function IndexOf<T(==)>(list: seq<T>, x: T): (i: nat)
    ensures i <= |list|
    ensures i < |list| ==> list[i] == x
    ensures forall j :: 0 <= j < i ==> list[j] != x
  {
    if list == [] then 0
    else if list[0] == x then 0
    else 1 + IndexOf(list[1..], x)
  }
}
