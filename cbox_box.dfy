/**
 * The Controlbox `Box` and `ProfilesObject` as classes whose methods change
 * the container, the storage and the active profile mask in place. Every
 * method is proved against the transition of the same name in CboxSpec, and
 * keeps the box invariant `Valid()`.
 */
module CboxBox {
  import opened Wrappers
  import opened CboxTypes
  import opened CboxSpec

  /** Builds the listing of m in ascending id order, one id at a time. */
  method ListObjects(m: Objects) returns (list: seq<Listed>)
    ensures list == Listing(m)
  {
    list := [];
    var id := 0;
    while id <= MaxObjId
      invariant 0 <= id <= MaxObjId + 1
      invariant list == ListBelow(m, id)
    {
      if id in m {
        list := list + [Listed(id, m[id])];
      }
      id := id + 1;
    }
  }

  class Box {
    const factory: Factory
    /** The checksum test of a command frame: bytes received, checksum received. */
    const crcValid: (seq<Byte>, seq<Byte>) -> bool
    var objects: Objects
    var storage: Objects
    var activeProfiles: Profiles
    /** REBOOT or FACTORY_RESET asked the application to restart. */
    var restartRequested: bool
    /** Where the application added the ProfilesObject among its system objects, if it did. */
    const profilesId: Option<SystemId>

    ghost function State(): BoxState
      reads this
    {
      BoxState(objects, storage, activeProfiles, restartRequested, profilesId)
    }

    ghost predicate Valid()
      reads this
    {
      Consistent(factory, State())
    }

    /**
     * The application hands over its system objects and the persisted
     * storage; the box loads every stored object the mask selects.
     */
    constructor (factory: Factory, crcValid: (seq<Byte>, seq<Byte>) -> bool,
                 systemObjects: Objects, storage: Objects, profiles: Profiles, profilesId: Option<SystemId>)
      requires forall id :: id in systemObjects ==> id < UserStartId
      ensures Valid() && !restartRequested
      ensures this.factory == factory && this.crcValid == crcValid
      ensures this.storage == storage && activeProfiles == profiles && this.profilesId == profilesId
      ensures SystemPart(objects) == systemObjects
      ensures UserPart(objects) == ActiveView(factory, storage, profiles)
    {
      this.factory := factory;
      this.crcValid := crcValid;
      this.objects := systemObjects;
      this.storage := storage;
      this.activeProfiles := profiles;
      this.restartRequested := false;
      this.profilesId := profilesId;
      new;
      LoadObjectsFromStorage();
      LoadOverSystemObjects(factory, systemObjects, storage, profiles);
    }

    /** getObject: the container entry for id, as LIST_ACTIVE_OBJECTS reports it. */
    function GetObject(id: ObjId): (r: Option<Entry>)
      reads this
      ensures r.Some? ==> Listed(id, r.value) in Listing(objects)
      ensures forall x :: x in Listing(objects) && x.id == id ==> r == Some(x.entry)
    {
      if id in objects then Some(objects[id]) else None
    }

    /** getActiveProfiles: the mask that ProfilesObject streams out. */
    function GetActiveProfiles(): (r: Profiles)
      reads this
      ensures ProfilesStreamTo(State(), 1) == (NoError, [r])
    {
      activeProfiles
    }

    /** loadObjectsFromStorage: each selected stored object missing from the container is rebuilt. */
    method LoadObjectsFromStorage()
      modifies this`objects
      ensures objects == Loaded(factory, old(objects), storage, activeProfiles)
    {
      ghost var before := objects;
      var pending := storage.Keys;
      while pending != {}
        invariant pending <= storage.Keys
        invariant objects == LoadedExcept(factory, before, storage, activeProfiles, pending)
        decreases pending
      {
        var id :| id in pending;
        LoadStep(factory, before, storage, activeProfiles, pending, id);
        if id >= UserStartId && id !in objects && Active(storage[id].profiles, activeProfiles) {
          var loaded := AddFromStream(factory, EncodeObject(id, storage[id]));
          StoredEntryLoads(factory, id, storage[id]);
          if loaded.Success? {
            objects := objects[loaded.value.0 := loaded.value.1];
          }
        }
        pending := pending - {id};
      }
      assert pending == {};
    }

    /**
     * setActiveProfilesAndUpdateObjects: drop the user objects the new mask
     * does not select, then load the selected ones from storage.
     */
    method SetActiveProfilesAndUpdateObjects(mask: Profiles)
      modifies this
      ensures State() == SetActiveProfiles(factory, old(State()), mask)
      ensures old(Valid()) ==> Valid()
    {
      activeProfiles := mask;
      ghost var before := objects;
      var pending := objects.Keys;
      while pending != {}
        invariant pending <= before.Keys
        invariant activeProfiles == mask && storage == old(storage)
        invariant restartRequested == old(restartRequested)
        invariant objects == map id | id in before
                    && (id in pending || id < UserStartId || Active(before[id].profiles, mask)) :: before[id]
        decreases pending
      {
        var id :| id in pending;
        if id >= UserStartId && !Active(objects[id].profiles, mask) {
          objects := objects - {id};
        }
        pending := pending - {id};
      }
      assert objects == Deactivated(before, mask);
      LoadObjectsFromStorage();
      assert objects == Loaded(factory, Deactivated(before, mask), storage, mask);
      if old(Valid()) && !old(restartRequested) {
        ReconcileIsActiveView(factory, old(State()), mask);
      }
    }

    /**
     * The restart the application performs after REBOOT or FACTORY_RESET: it
     * installs its system objects again, the box boots with the given mask
     * and reloads storage.
     */
    method Restart(systemObjects: Objects, profiles: Profiles)
      requires forall id :: id in systemObjects ==> id < UserStartId
      modifies this
      ensures State() == CboxSpec.Restart(factory, systemObjects, profiles, old(State()))
      ensures Valid() && SystemPart(objects) == systemObjects
    {
      objects := systemObjects;
      activeProfiles := profiles;
      restartRequested := false;
      LoadObjectsFromStorage();
      RestartIsConsistent(factory, systemObjects, profiles, old(State()));
    }

    method ReadObject(args: seq<Byte>, crcOk: bool) returns (resp: Response)
      ensures resp == ReadResponse(State(), args, crcOk)
    {
      if |args| < 2 {
        return Status(InputStreamReadError);
      }
      var id := U16At(args, 0);
      if !crcOk {
        resp := Status(CrcErrorInCommand);
      } else if id !in objects {
        resp := Status(ObjectNotFound);
      } else if profilesId == Some(id) {
        resp := ObjectData(id, objects[id].typeId, [activeProfiles]);
      } else {
        resp := ObjectData(id, objects[id].typeId, objects[id].body);
      }
    }

    method WriteObject(args: seq<Byte>, crcOk: bool) returns (resp: Response)
      modifies this
      ensures Outcome(State(), resp) == HandleWrite(factory, old(State()), args, crcOk)
    {
      if |args| < 4 {
        return Status(InputStreamReadError);
      }
      var id, typeId, body := U16At(args, 0), U16At(args, 2), args[4..];
      if !crcOk {
        resp := Status(CrcErrorInCommand);
      } else if id !in objects {
        resp := Status(ObjectNotFound);
      } else if objects[id].typeId != typeId {
        resp := Status(InvalidObjectType);
      } else if profilesId == Some(id) {
        resp := WriteProfiles(id, body);
      } else if !factory.accepts(typeId, body) {
        resp := Status(ObjectDecodeError);
      } else {
        var e := objects[id].(body := body);
        objects := objects[id := e];
        if id in storage {
          storage := storage[id := e];
        }
        resp := ObjectData(id, typeId, body);
      }
    }

    /**
     * WRITE_OBJECT reaching the ProfilesObject: what its streamFrom does, then
     * the stored entry rewritten with what it streams out.
     */
    method WriteProfiles(id: ObjId, body: seq<Byte>) returns (resp: Response)
      requires IsProfilesObject(State(), id) && id in objects
      modifies this
      ensures Outcome(State(), resp) == CboxSpec.WriteProfiles(factory, old(State()), id, body)
    {
      if body == [] {
        return Status(InputStreamReadError);
      }
      var e := objects[id].(body := [body[0]]);
      SetActiveProfilesAndUpdateObjects(body[0]);
      if id in storage {
        storage := storage[id := e];
      }
      resp := ObjectData(id, e.typeId, e.body);
    }

    method CreateObject(args: seq<Byte>, crcOk: bool) returns (resp: Response)
      modifies this
      ensures Outcome(State(), resp) == HandleCreate(factory, old(State()), args, crcOk)
    {
      var added := AddFromCrcStream(factory, args, crcOk);
      if added.Failure? {
        return Status(added.error);
      }
      var (requested, e) := added.value;
      var id := requested;
      if requested == 0 {
        var free := FirstFree(objects, storage, UserStartId);
        if free.None? {
          return Status(IdSpaceExhausted);
        }
        id := free.value;
      } else if requested < UserStartId || requested in objects || requested in storage {
        return Status(InvalidObjectId);
      }
      storage := storage[id := e];
      if Active(e.profiles, activeProfiles) {
        objects := objects[id := e];
      }
      resp := Created(id);
    }

    method DeleteObject(args: seq<Byte>, crcOk: bool) returns (resp: Response)
      modifies this
      ensures Outcome(State(), resp) == HandleDelete(old(State()), args, crcOk)
    {
      if |args| < 2 {
        return Status(InputStreamReadError);
      }
      var id := U16At(args, 0);
      if !crcOk {
        resp := Status(CrcErrorInCommand);
      } else if id < UserStartId {
        resp := Status(ObjectNotDeletable);
      } else if id !in objects && id !in storage {
        resp := Status(ObjectNotFound);
      } else {
        objects := objects - {id};
        storage := storage - {id};
        resp := Deleted(id);
      }
    }

    method ListActiveObjects(crcOk: bool) returns (resp: Response)
      ensures resp == ListResponse(Streamed(State()), crcOk)
    {
      if !crcOk {
        return Status(CrcErrorInCommand);
      }
      var shown := objects;
      if profilesId.Some? && profilesId.value in objects {
        shown := objects[profilesId.value := objects[profilesId.value].(body := [activeProfiles])];
      }
      var list := ListObjects(shown);
      resp := ObjectList(list);
    }

    method ListSavedObjects(crcOk: bool) returns (resp: Response)
      ensures resp == ListResponse(storage, crcOk)
    {
      if !crcOk {
        return Status(CrcErrorInCommand);
      }
      var list := ListObjects(storage);
      resp := ObjectList(list);
    }

    method ClearObjects(crcOk: bool) returns (resp: Response)
      modifies this
      ensures Outcome(State(), resp) == HandleClear(old(State()), crcOk)
    {
      if !crcOk {
        return Status(CrcErrorInCommand);
      }
      objects := map id | id in objects && id < UserStartId :: objects[id];
      storage := map id | id in storage && id < UserStartId :: storage[id];
      resp := Status(NoError);
    }

    method Reboot(crcOk: bool) returns (resp: Response)
      modifies this
      ensures Outcome(State(), resp) == HandleReboot(old(State()), crcOk)
    {
      if !crcOk {
        return Status(CrcErrorInCommand);
      }
      restartRequested := true;
      resp := Status(NoError);
    }

    method FactoryReset(crcOk: bool) returns (resp: Response)
      modifies this
      ensures Outcome(State(), resp) == HandleFactoryReset(old(State()), crcOk)
    {
      if !crcOk {
        return Status(CrcErrorInCommand);
      }
      storage := map[];
      restartRequested := true;
      resp := Status(NoError);
    }

    /** handleCommand: one frame in, one response out, the invariant kept. */
    method HandleCommand(fr: Frame) returns (resp: Response)
      modifies this
      ensures Outcome(State(), resp) == CboxSpec.HandleCommand(factory, crcValid, old(State()), fr)
      ensures old(Valid()) ==> Valid()
    {
      var crcOk := crcValid([fr.cmd] + fr.args, fr.crc);
      var cmd := CommandOf(fr.cmd);
      if cmd.None? {
        resp := Status(InvalidCommand);
      } else {
        match cmd.value {
          case NoCommand => resp := Empty;
          case ReadObject => resp := ReadObject(fr.args, crcOk);
          case WriteObject => resp := WriteObject(fr.args, crcOk);
          case CreateObject => resp := CreateObject(fr.args, crcOk);
          case DeleteObject => resp := DeleteObject(fr.args, crcOk);
          case ListActiveObjects => resp := ListActiveObjects(crcOk);
          case ListStoredObjects => resp := ListSavedObjects(crcOk);
          case ClearObjects => resp := ClearObjects(crcOk);
          case Reboot => resp := Reboot(crcOk);
          case FactoryReset => resp := FactoryReset(crcOk);
        }
      }
      if old(Valid()) {
        HandlePreservesConsistency(factory, crcValid, old(State()), fr);
      }
    }
  }

  /**
   * The system object through which the active profiles are read and written.
   * The box's own WRITE_OBJECT and READ_OBJECT on `profilesId` run the same
   * transitions (`Box.WriteProfiles`, `Streamed`).
   */
  class ProfilesObject {
    const box: Box

    constructor (box: Box)
      ensures this.box == box
    {
      this.box := box;
    }

    /** streamFrom: a byte read from input becomes the box's active mask. */
    method StreamFrom(input: seq<Byte>) returns (err: CboxError)
      modifies box
      ensures (err, box.State()) == ProfilesStreamFrom(box.factory, old(box.State()), input)
      ensures old(box.Valid()) ==> box.Valid()
    {
      if |input| == 0 {
        return InputStreamReadError;
      }
      box.SetActiveProfilesAndUpdateObjects(input[0]);
      err := NoError;
    }

    /** streamTo: write the active mask into an output with `room` free bytes. */
    method StreamTo(room: nat) returns (err: CboxError, written: seq<Byte>)
      ensures (err, written) == ProfilesStreamTo(box.State(), room)
    {
      var profiles := box.GetActiveProfiles();
      if room == 0 {
        return OutputStreamWriteError, [];
      }
      err, written := NoError, [profiles];
    }
  }
}
