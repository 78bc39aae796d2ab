# Controlbox box and Wi-Fi setup console, modelled in Dafny

This project models two pieces of the firmware.

**The Controlbox `Box`** (`controlbox/src/lib/Box.h`). The box is a command dispatcher over a container of live objects and a persistent object storage. Command bytes 0..9 select a handler; every other byte is an invalid command. Ids below 100 (`userStartId`) are system objects: the application installs them, and they can be neither deleted nor cleared. The byte `activeProfiles` selects which stored user objects are live in the container. `setActiveProfilesAndUpdateObjects` drops the live user objects the new mask no longer selects, then loads from storage every selected object that the factory can construct. Objects arrive through two entry points, one checked against the frame's CRC and one unchecked (storage has no CRC). Both funnel into one implementation. `ProfilesObject` exposes the active mask as a one-byte object. When the application adds it among its system objects (`profilesId`), WRITE_OBJECT on that id runs its `streamFrom`, which switches the mask and reconciles the container. READ_OBJECT and LIST_ACTIVE_OBJECTS show it as its `streamTo` writes it: the mask as one byte.

- `cbox_types.dfy` (module `CboxTypes`) holds ids, profile masks, stored entries, error codes and the object factory.
- `cbox_spec.dfy` (module `CboxSpec`) states every handler as a function from the old box state to the new state and the response. It also holds the lemmas relating commands to one another.
- `cbox_box.dfy` (module `CboxBox`) holds the `Box` and `ProfilesObject` classes. Their methods change the container, storage and mask in place and are proved against those functions.

The central invariant is `CboxSpec.Consistent`: the user objects in the container are exactly the stored objects that the active profiles select and the factory can build. Every command keeps it. A box that has asked to reboot is exempt until it restarts.

Profile masks are held as integers 0..255. The test "the object's profiles share a bit with the active mask" is written as a recursion over the low 8 bits, and `CboxTypes.ActiveIsBitwiseAnd` proves it equal to the bitwise AND of the two 8-bit masks.

**The Wi-Fi credentials reader** (`system/src/wifi_credentials_reader.cpp`, module `WifiSetup` in `wifi_reader.dfy`).

- `read()` listens on Serial1 for a 16-byte magic code before handing that port to the setup tester. The matcher is naive: a byte that breaks a partial match resets the position to 0 and is not tested again against the start of the code.
- `handle()` runs the one-character commands of the setup port. The 'w' dialogue reads an SSID of at most 32 characters. It repeats the security prompt until the answer starts with 0..3. It reads a password of at most 64 characters only when the security type is not 0, then calls the connect callback. 'x' calls the callback with no credentials and type 0. 'i', 'm', 'f' and 's' each make one platform call (device id, MAC address, firmware update over serial, module information). Any other character does nothing.
- The matcher's properties are proved for any non-empty code and then applied to the 16-byte constant.
- The modelled build has `SETUP_OVER_SERIAL1` set, so the Serial1 matcher and the tester exist, and PLATFORM_ID > 2, where the magic code is listened for.

Calls out of the component are parameters or recorded values:

- the factory's constructors (`Factory`);
- the CRC check (`crcValid`);
- the connect callback and the platform queries (`calls`);
- the typed lines of the setup port (`typed`);
- what is printed (`output`).

## Model

| member | source | states |
|---|---|---|
| CboxSpec.CommandOf | controlbox/src/lib/Box.h:92-103 | a byte names a command iff it is below 10, and then it is that command's own byte |
| CboxSpec.CommandByteRoundTrip | controlbox/src/lib/Box.h:92-103 | every command id decodes from its byte, and no two commands share a byte |
| CboxTypes.ActiveIsBitwiseAnd | controlbox/src/lib/Box.h:46 | the bit test that decides whether an object is active holds exactly when its 8-bit profile mask and the active mask have a common set bit (their bitwise AND is nonzero) |
| CboxTypes.NothingMeetsZero | controlbox/src/lib/Box.h:46 | no profile mask meets the empty mask |
| CboxSpec.DecodeEncodeObject | controlbox/src/lib/Box.h:63-65 | decoding an encoded object (id, type, profiles, body) returns the same id and entry |
| CboxSpec.EncodeDecodeObject | controlbox/src/lib/Box.h:63-65 | every payload that decodes is exactly the encoding of what it decodes to |
| CboxSpec.AddFromStream | controlbox/src/lib/Box.h:63-65 | the unchecked entry point succeeds exactly when the payload decodes and the factory can construct its type from its body, and then yields the decoded id and entry; a payload too short to decode is a read error, an unregistered type is "not creatable", and a body the type rejects is a decode error |
| CboxSpec.AddFromCrcStream | controlbox/src/lib/Box.h:61-62 | the CRC-checked entry point succeeds exactly when the checksum holds and the unchecked one would succeed, with the same id and entry; a decode or construction error is reported as such, and only an otherwise good payload gets the CRC error |
| CboxSpec.AddVariantsAgree | controlbox/src/lib/Box.h:61-65 | the CRC and plain entry points agree whenever the CRC holds; a bad CRC always fails; a success is the decoded id and entry, which the factory can construct |
| CboxSpec.StoredEntryLoads | controlbox/src/lib/Box.h:64-67 | a stored entry, streamed back through the unchecked entry point, loads iff the factory can construct it, and then under its own id and unchanged |
| CboxSpec.ListBelow | controlbox/src/lib/Box.h:55-56 | a listing is in strictly ascending id order and holds exactly the entries of the map |
| CboxSpec.ListedIdsPresent | controlbox/src/lib/Box.h:55-56 | every entry a listing shows is in the listed map |
| CboxSpec.FirstFree | controlbox/src/lib/Box.h:88-90 | the id picked for a new object is the least user id used by neither the container nor storage; none exists only when all of them are used |
| CboxSpec.LoadStep | controlbox/src/lib/Box.h:67 | visiting one stored id during loading adds it iff it is selected, constructible and absent from the container |
| CboxSpec.ReconcileIsActiveView | controlbox/src/lib/Box.h:82 | after a profile change, the system objects are untouched and the user objects are exactly the stored objects the new mask selects |
| CboxSpec.ReconcileUserPart | controlbox/src/lib/Box.h:82 | after a profile change, the live user objects are exactly the stored objects the new mask selects and the factory can build |
| CboxSpec.ReconcileIdempotent | controlbox/src/lib/Box.h:82 | applying the same mask a second time changes nothing |
| CboxSpec.ProfileSwitchRestores | controlbox/src/lib/Box.h:82 | switching to another mask keeps the box consistent, and switching back restores the container exactly |
| CboxSpec.NoProfilesOnlySystemObjects | controlbox/src/lib/Box.h:82 | with the empty mask, no stored object is selected and only the system objects stay live |
| CboxSpec.WritePreservesConsistency | controlbox/src/lib/Box.h:52 | WRITE_OBJECT keeps container and storage in step, including a write that reaches the ProfilesObject |
| CboxSpec.WriteProfilesPreservesConsistency | controlbox/src/lib/Box.h:114-121 | a write to the ProfilesObject switches masks through reconciliation and leaves the box consistent |
| CboxSpec.ActiveViewIgnoresSystem | controlbox/src/lib/Box.h:38-40 | rewriting a stored system entry does not change which user objects any mask selects |
| CboxSpec.ProfilesWriteThenRead | controlbox/src/lib/Box.h:106-129 | WRITE_OBJECT on the ProfilesObject makes the body's first byte the mask, reconciles the container as setActiveProfilesAndUpdateObjects does, echoes the mask, and READ_OBJECT then streams the same mask back; an empty body is a read error that changes nothing |
| CboxSpec.MaskChangesOnlyThroughProfilesObject | controlbox/src/lib/Box.h:106 | the dispatcher changes the active mask only for a WRITE_OBJECT that reaches the ProfilesObject |
| CboxSpec.InstallPreservesConsistency | controlbox/src/lib/Box.h:53 | persisting a new constructible user object, and making it live iff its profiles are active, keeps the box consistent |
| CboxSpec.ActiveViewInsert | controlbox/src/lib/Box.h:53 | storing a new constructible user object adds it to the selected view iff the active mask selects it |
| CboxSpec.CreatePreservesConsistency | controlbox/src/lib/Box.h:53 | CREATE_OBJECT keeps the box consistent |
| CboxSpec.DeletePreservesConsistency | controlbox/src/lib/Box.h:54 | DELETE_OBJECT keeps the box consistent |
| CboxSpec.ClearPreservesConsistency | controlbox/src/lib/Box.h:57 | a successful CLEAR_OBJECTS always leaves a consistent box; a failed one leaves consistency as it was |
| CboxSpec.HandlePreservesConsistency | controlbox/src/lib/Box.h:73 | every command frame, valid or not, keeps a consistent box consistent |
| CboxSpec.SystemObjectsStay | controlbox/src/lib/Box.h:38-40 | whatever frame the dispatcher handles, every object below id 100 in the container is still there afterwards, and only WRITE_OBJECT may change its state |
| CboxSpec.DeleteSystemIdRejected | controlbox/src/lib/Box.h:38-40 | deleting an id below 100 never changes the box, and answers "not deletable", or the CRC error when the checksum fails |
| CboxSpec.BadCrcChangesNothing | controlbox/src/lib/Box.h:61-63 | a frame with a bad checksum changes nothing; every command but NONE answers with an error status |
| CboxSpec.ClearKeepsOnlySystemObjects | controlbox/src/lib/Box.h:100 | CLEAR_OBJECTS removes every user object from container and storage, keeps every system object as it was, and both listings then show system ids only |
| CboxSpec.FactoryResetThenRestart | controlbox/src/lib/Box.h:102 | FACTORY_RESET empties storage and asks for a reboot; after the restart the container holds exactly the system objects the application installs, whatever it held before, the mask is the boot mask, and the box is consistent |
| CboxSpec.LoadOverSystemObjects | controlbox/src/lib/Box.h:38-40 | loading storage over the application's system objects keeps them and adds exactly the selected stored objects |
| CboxSpec.RestartIsConsistent | controlbox/src/lib/Box.h:38-39 | a reboot always yields a consistent box whose system part is exactly the objects the application installs and whose user part is the boot mask's view of storage |
| CboxSpec.CreateThenRead | controlbox/src/lib/Box.h:94-96 | a created object gets a fresh user id and is persisted as sent; if its profiles are active, READ_OBJECT on the returned id gives its type and body back, and otherwise the container is unchanged |
| CboxSpec.WriteBackIsIdentity | controlbox/src/lib/Box.h:94-95 | writing back what READ_OBJECT returned leaves a consistent box unchanged and echoes the object |
| CboxSpec.ProfilesRoundTrip | controlbox/src/lib/Box.h:114-129 | the profiles object reads back the byte streamed into it; a missing input byte is a read error that changes nothing; an output with no room is a write error |
| CboxBox.ListObjects | controlbox/src/lib/Box.h:55-56 | the listing loop produces the ascending listing of the map |
| CboxBox.Box.constructor | controlbox/src/lib/Box.h:70 | a new box keeps the application's system objects and holds exactly the stored user objects its profiles select |
| CboxBox.Box.GetObject | controlbox/src/lib/Box.h:78-80 | a fetched object is the one the container lists under that id, and absent iff not listed |
| CboxBox.Box.GetActiveProfiles | controlbox/src/lib/Box.h:84-86 | the mask returned is the byte the profiles object streams out |
| CboxBox.Box.LoadObjectsFromStorage | controlbox/src/lib/Box.h:67 | the loop over storage adds exactly the selected, constructible stored objects not yet live |
| CboxBox.Box.SetActiveProfilesAndUpdateObjects | controlbox/src/lib/Box.h:82 | the deactivation and load loops produce the reconciled state, and a consistent box stays consistent |
| CboxBox.Box.Restart | controlbox/src/lib/Box.h:38-39 | the next boot starts the container from the system objects the application installs and the boot mask, and reloads storage over them, leaving a consistent box |
| CboxBox.Box.ReadObject | controlbox/src/lib/Box.h:51 | the response is the read transition's response, the ProfilesObject answering with the mask; nothing changes |
| CboxBox.Box.WriteObject | controlbox/src/lib/Box.h:52 | the new state and response are those of the write transition |
| CboxBox.Box.WriteProfiles | controlbox/src/lib/Box.h:114-121 | a write reaching the ProfilesObject performs `CboxSpec.WriteProfiles`: the mask switch with its two loops, then the stored entry rewritten |
| CboxBox.Box.CreateObject | controlbox/src/lib/Box.h:53 | the new state and response are those of the create transition |
| CboxBox.Box.DeleteObject | controlbox/src/lib/Box.h:54 | the new state and response are those of the delete transition |
| CboxBox.Box.ListActiveObjects | controlbox/src/lib/Box.h:55 | the response lists the container as its objects stream out (the ProfilesObject as the mask) in id order, or is the CRC error |
| CboxBox.Box.ListSavedObjects | controlbox/src/lib/Box.h:56 | the response lists every stored entry (in id order, see Left out), or is the CRC error |
| CboxBox.Box.ClearObjects | controlbox/src/lib/Box.h:57 | the new state and response are those of the clear transition |
| CboxBox.Box.Reboot | controlbox/src/lib/Box.h:58 | the new state and response are those of the reboot transition |
| CboxBox.Box.FactoryReset | controlbox/src/lib/Box.h:59 | the new state and response are those of the factory-reset transition |
| CboxBox.Box.HandleCommand | controlbox/src/lib/Box.h:73 | dispatching a frame performs exactly the transition its command byte names, and keeps the box consistent |
| CboxBox.ProfilesObject.constructor | controlbox/src/lib/Box.h:112 | the profiles object refers to its box |
| CboxBox.ProfilesObject.StreamFrom | controlbox/src/lib/Box.h:114-121 | one input byte becomes the box's mask through reconciliation; a missing byte is a read error |
| CboxBox.ProfilesObject.StreamTo | controlbox/src/lib/Box.h:123-129 | the box's mask is written as one byte, or a write error when there is no room |
| WifiSetup.ListenStep | system/src/wifi_credentials_reader.cpp:87-108 | one read keeps the matcher's position within the code, and enabled exactly at its end |
| WifiSetup.Listen | system/src/wifi_credentials_reader.cpp:80-109 | the matcher after any sequence of reads is well formed |
| WifiSetup.ListenStepFrame | system/src/wifi_credentials_reader.cpp:89-108 | a read with no data changes nothing; once enabled the matcher never changes; otherwise a byte advances the position on a match and resets it to 0 on a mismatch |
| WifiSetup.ListenPrefixStep | system/src/wifi_credentials_reader.cpp:80-109 | the matcher after one more read is one step from the matcher before it |
| WifiSetup.MatchedSuffix | system/src/wifi_credentials_reader.cpp:89-101 | while not enabled, the last magicPos bytes read are the start of the code, and the matcher stood at 0 before them |
| WifiSetup.FeedCode | system/src/wifi_credentials_reader.cpp:91-92 | from position 0, the first j bytes of the code bring the matcher to position j |
| WifiSetup.EnabledStays | system/src/wifi_credentials_reader.cpp:89 | once enabled, the port stays enabled whatever is read after |
| WifiSetup.EnabledJustNow | system/src/wifi_credentials_reader.cpp:91-92 | the byte that enables the port completes the whole code, received in a row from position 0 |
| WifiSetup.EnabledOnlyAfterCode | system/src/wifi_credentials_reader.cpp:89-101 | an enabled port has received the code in a row from a moment the matcher stood at 0 |
| WifiSetup.CodeEnables | system/src/wifi_credentials_reader.cpp:91-96 | receiving the code in a row from position 0 enables the port |
| WifiSetup.EnabledIffCodeReceived | system/src/wifi_credentials_reader.cpp:87-104 | the port is enabled iff the code arrived in a row starting at a moment the matcher stood at 0 |
| WifiSetup.StrayFirstByteHidesCode | system/src/wifi_credentials_reader.cpp:88-101 | an extra 0xe1 in front of the magic code leaves the port disabled, because the byte that breaks a match is not re-tested |
| WifiSetup.ReadInto | system/src/wifi_credentials_reader.cpp:227-229 | reading a line puts at most maxLen of its characters and then a NUL into the buffer, and leaves the rest of the buffer as it was |
| WifiSetup.SecurityAnswer | system/src/wifi_credentials_reader.cpp:129-134 | the security prompt accepts the first typed line that starts with 0..3; every earlier line was refused; none is accepted when no line qualifies |
| WifiSetup.DialogueProperties | system/src/wifi_credentials_reader.cpp:118-151 | the security type is the accepted digit, in 0..3; the SSID holds at most 32 characters, NUL-terminated; the password is read iff the type is not 0, and otherwise stays all zero |
| WifiSetup.DialogueIncomplete | system/src/wifi_credentials_reader.cpp:125-150 | without an SSID line, an accepted security line, or the password line a nonzero type needs, the dialogue has no result |
| WifiSetup.DialogueComplete | system/src/wifi_credentials_reader.cpp:125-150 | the lines the console reads step by step give exactly the dialogue's result, and the accepted type is in 0..3 |
| WifiSetup.SecurityPrompts | system/src/wifi_credentials_reader.cpp:129-134 | n rounds of the security question print two texts per round |
| WifiSetup.SecurityPromptsShape | system/src/wifi_credentials_reader.cpp:129-134 | round i of the security question prints the prompt, then the echoed line break |
| WifiSetup.CredentialsReader.constructor | system/src/wifi_credentials_reader.cpp:59-71 | the matcher starts at position 0, disabled, with no tester |
| WifiSetup.CredentialsReader.ListenSerial1 | system/src/wifi_credentials_reader.cpp:87-109 | the matcher fields take one step of the matcher, and once enabled every value read goes to the tester |
| WifiSetup.CredentialsReader.Read | system/src/wifi_credentials_reader.cpp:80-115 | one Serial1 value steps the matcher; a setup-port byte takes the console through `Handled` for that character; with none, the typed input, output, calls and all three buffers are unchanged |
| WifiSetup.CredentialsReader.Print | system/src/wifi_credentials_reader.cpp:218-225 | the text is appended to what the setup port has received |
| WifiSetup.CredentialsReader.Clear | system/src/wifi_credentials_reader.cpp:121-123 | the buffer is all zero |
| WifiSetup.CredentialsReader.ClearBuffers | system/src/wifi_credentials_reader.cpp:121-123 | the SSID, password and security buffers are all zero |
| WifiSetup.CredentialsReader.ReadLine | system/src/wifi_credentials_reader.cpp:227-233 | the copy loop consumes one typed line and leaves the buffer as reading that line into it says, followed by an echoed line break; with no line, nothing changes |
| WifiSetup.CredentialsReader.AskSecurityType | system/src/wifi_credentials_reader.cpp:129-134 | the prompt loop stops at the first accepted line, after printing the prompt once per line read |
| WifiSetup.CredentialsReader.AskSsidAndSecurityType | system/src/wifi_credentials_reader.cpp:121-134 | the buffers are cleared, the SSID is read, and the security prompt repeats until accepted |
| WifiSetup.CredentialsReader.AskPassword | system/src/wifi_credentials_reader.cpp:145-150 | a password line is read iff the security type is above 0 |
| WifiSetup.CredentialsReader.Finish | system/src/wifi_credentials_reader.cpp:152-167 | the save notice, the connect callback with the SSID buffer, the password buffer and the numeric security type, then the six greeting lines |
| WifiSetup.CredentialsReader.HandleCredentials | system/src/wifi_credentials_reader.cpp:119-168 | a completed 'w' dialogue hands exactly the dialogue's SSID, password and type to the callback and prints the dialogue's transcript; while lines are missing, no callback is made |
| WifiSetup.CredentialsReader.Handle | system/src/wifi_credentials_reader.cpp:118-214 | the console moves as `Handled` says: 'w' leaves exactly what the credentials dialogue promises (buffers, one connect call, lines consumed, transcript; no call while lines are missing); 'x' calls the callback with no credentials and type 0; 'i', 'm', 'f' and 's' make their one platform call; every other character changes nothing, buffers included |

## Left out

- Box.cpp, Container.h, ObjectStorage, DataStream and ObjectFactory are not part of this model. The handlers of Box.cpp are modelled as follows:
  - a frame carries the command byte, its arguments and a checksum;
  - object payloads are id (16 bits, little-endian), type (16 bits, little-endian), a profiles byte and the body;
  - a handler decodes its arguments before it looks at the checksum.
- `obj_id_t` and `obj_type_t` are taken to be 16-bit unsigned.
- CREATE_OBJECT with id 0 takes the least free user id. A requested nonzero id must be at least 100 and unused; otherwise the command answers with an invalid-id error.
- The `replace` flag of `addContainedObjectFromStream`: only the non-replacing use, by CREATE_OBJECT and the storage load, is modelled.
- `hexCommunicate` and the `ConnectionPool`: the hex transport and the choice of connection are I/O. A command is one decoded frame in and one response out.
- The CRC algorithm is a parameter `crcValid`, not a computed checksum.
- A storage write that fails, and an output stream that runs out of room inside a handler: storage and responses always succeed, except in `ProfilesObject.streamTo`.
- The reboot primitive: REBOOT and FACTORY_RESET only set `restartRequested`. `Box.Restart` models what the next boot does: the application's system objects and the mask the box boots with are parameters, and storage is reloaded over them.
- Concrete object types, and `typeId`/`resolveTypeId` of `ProfilesObject`: the factory is a set of known types plus a predicate saying which bodies each accepts.
- The box's initial `activeProfiles`, at construction and at each restart, is a parameter: how the boot code recovers it from a persisted ProfilesObject entry is not modelled. A write to the ProfilesObject rewrites its stored entry only when that entry exists, like any other write.
- The ProfilesObject's container entry keeps a placeholder body; what it streams out is computed from the mask (`CboxSpec.Streamed`). Its `typeId` is whatever the application registered it with.
- WifiSetup.CredentialsReader.Print: the per-character write loop and its 1 ms delay are not modelled; each print call appends one `Message` naming its text.
- The output of the 'i', 'm' and 's' commands, and the firmware update behind 'f': each is recorded as one platform call.
- WifiSetup.CredentialsReader.ReadLine: one typed line is one input line. The draining of further typed-ahead characters is folded into that, and waiting with no timeout is modelled as stopping with no line left.
- LIST_ACTIVE_OBJECTS and LIST_STORED_OBJECTS list their entries in ascending id order. The container's and storage's own iteration order, which need not follow ids, is not modelled; the listings promise the same entries, each once.
- Object state is the exact body last streamed into it: the factory's `accepts` decides whether an object takes a body, but an accepted body is kept as sent. So `CboxSpec.CreateThenRead` and `CboxSpec.WriteBackIsIdentity` read back what was written by construction; an object type that normalises or rewrites its state on `streamFrom` is not modelled.
- The build without `SETUP_OVER_SERIAL1` (no Serial1 matcher, no tester) is not modelled.
- The PLATFORM_ID < 3 branch (no magic code, WEP warning, "Spark Core" wording) is not modelled.
- WifiSetup.EnabledIffCodeReceived: stated for sequences of bytes actually read. Reads with no data (-1) change nothing, as `ListenStepFrame` states.
- The tester's own behaviour (`WiFiTester::setup`/`loop`) is not part of this model; the values passed to it are recorded in `testerInput`.
