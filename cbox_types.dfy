/**
 * Value types shared by the Controlbox command dispatcher model:
 * object ids, type ids, profile masks, stored object entries, the error
 * codes the handlers answer with, and the object factory the box is built
 * with.
 */
module CboxTypes {

  type Byte = x: int | 0 <= x < 256

  /** obj_id_t is a 16-bit unsigned id. */
  const MaxObjId := 0xFFFF
  type ObjId = x: int | 0 <= x <= MaxObjId

  /** obj_type_t is a 16-bit unsigned type tag. */
  type TypeId = x: int | 0 <= x <= 0xFFFF

  /** One bit per profile, as the box's `uint8_t activeProfiles`. */
  type Profiles = Byte

  /** Ids below this are system objects: installed by the application, never deletable. */
  const UserStartId: ObjId := 100

  /** An id in the system range, below UserStartId. */
  type SystemId = x: ObjId | x < UserStartId

  datatype CboxError =
    | NoError
    | InputStreamReadError
    | OutputStreamWriteError
    | CrcErrorInCommand
    | InvalidCommand
    | InvalidObjectId
    | InvalidObjectType
    | ObjectNotFound
    | ObjectNotDeletable
    | ObjectNotCreatable
    | ObjectDecodeError
    | IdSpaceExhausted

  datatype Result<T> = Success(value: T) | Failure(error: CboxError)

  /**
   * What the container holds for one object and what storage persists for it:
   * its profile membership, its type tag and its serialized state.
   */
  datatype Entry = Entry(profiles: Profiles, typeId: TypeId, body: seq<Byte>)

  type Objects = map<ObjId, Entry>

  /**
   * The object factory: the type tags that have a registered constructor, and
   * for every type whether its streamFrom accepts a given body.
   */
  datatype Factory = Factory(types: set<TypeId>, accepts: (TypeId, seq<Byte>) -> bool)

  /** An object is active when its profile membership intersects the active mask. */
  predicate Active(profiles: Profiles, mask: Profiles) {
    BitsMeet(profiles, mask, 8)
  }

  /** Some bit among the lowest n is set in both a and b: `(a & b) != 0` on n-bit values. */
  predicate BitsMeet(a: nat, b: nat, n: nat) {
    if n == 0 then false
    else (a % 2 == 1 && b % 2 == 1) || BitsMeet(a / 2, b / 2, n - 1)
  }

  /**
   * The bit test is the box's `profiles & activeProfiles` on 8-bit values:
   * an object is active exactly when the two masks share a set bit.
   */
  lemma ActiveIsBitwiseAnd(x: bv8, y: bv8)
    ensures Active(x as int, y as int) <==> x & y != 0
  {
    assert Pow2(8) == 256;
    BitsMeetIsAnd(x, y, 8);
  }

  function Pow2(n: nat): nat {
    if n == 0 then 1 else 2 * Pow2(n - 1)
  }

  lemma {:induction false} BitsMeetIsAnd(x: bv8, y: bv8, n: nat)
    requires (x as int) < Pow2(n) && (y as int) < Pow2(n)
    ensures BitsMeet(x as int, y as int, n) <==> x & y != 0
  {
    if n == 0 {
      assert x == 0;
    } else {
      AndStep(x, y);
      HalfShift(x);
      HalfShift(y);
      LowBit(x);
      LowBit(y);
      BitsMeetIsAnd(x >> 1, y >> 1, n - 1);
    }
  }

  lemma AndStep(x: bv8, y: bv8)
    ensures (x & y != 0) <==> ((x & 1 == 1 && y & 1 == 1) || ((x >> 1) & (y >> 1) != 0))
  {
  }

  lemma HalfShift(x: bv8)
    ensures (x >> 1) as int == (x as int) / 2
  {
  }

  lemma LowBit(x: bv8)
    ensures (x & 1 == 1) <==> (x as int) % 2 == 1
  {
  }

  /** No bit meets an empty mask, on either side. */
  lemma {:induction false} NothingMeetsZero(a: nat, n: nat)
    ensures !BitsMeet(a, 0, n) && !BitsMeet(0, a, n)
  {
    if n > 0 {
      NothingMeetsZero(a / 2, n - 1);
    }
  }

  /** The factory can build an object of this entry's type from this entry's body. */
  predicate Constructible(f: Factory, e: Entry) {
    e.typeId in f.types && f.accepts(e.typeId, e.body)
  }
}
