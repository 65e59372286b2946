# reproca core in Dafny

This project models three parts of reproca, a Python RPC helper library, and proves properties of the models.

- **The binary value format of `binary_format.py`.**
  - `serialize` writes a value into a growing `bytearray`. For a list or a mapping it reserves an 8-byte size field, writes the body, then patches the size in.
  - `value` reads a value back from a byte stream. It reports the value together with the number of bytes it counts for it.
  - `pack`, `unpack` and `seek` are also modelled.
- **The session registry `Sessions`, in both copies** (`reproca_server/reproca/sessions.py` and `reproca/sessions.py`). It keeps two dictionaries, `users` (user id to session id) and `sessions` (session id to `Session`), which are meant to stay inverse to each other.
- **The response cookie accumulator `Response`, in both copies** (`reproca_server/reproca/response.py` and `reproca/response.py`).

## Layout

- Shared modules:
  - `wrappers.dfy`: `Option` and `Result`.
  - `little_endian.dfy`: the `struct` `<Q` and `<q` codecs and their round trips.
- `wire.dfy` (module `Wire`): the format as pure functions.
  - `Written(v)` gives the bytes `serialize` appends and the exception it ends with, if any.
    - It follows the list branch as evidently intended. `AsWritten(v)` is `serialize` exactly as written, whose list branch swallows a mapping's key error (see Findings).
  - `DecodeAt(data, pos)` gives what `value` reads at a cursor: the value, the count `value` reports, and where the cursor ends.
  - `Normalized(v)` is what a value reads back as: keys cut to four bytes, zeros stripped, a later equal key replacing an earlier one.
  - `Representable(v)` says when that is `v` itself.
- `wire_proofs.dfy` (module `WireProofs`): properties of the format.
  - The fixed encodings of each kind, and the backpatched size field.
  - Every encoding decodes in place with consumed counts that add up.
  - How keys are cut and collide, and the round trip.
- `binary_format.dfy` (module `BinaryFormat`): the codec as it runs.
  - A `ByteArray` class for the `bytearray`, and a `Stream` class for the cursor over the bytes.
  - The methods `Serialize`, `Pack`, `ReadValue`, `Unpack` and `Seek`, each with its loops.
  - Every method is proved against the functions of `Wire`.
- `session_registry.dfy` (module `SessionRegistry`): the registry as functions on the pair of dictionaries.
  - These are shared by both copies, since their logic is the same.
  - It also holds the invariant and the lemmas about it.
- Classes, one per source file:
  - `server_sessions.dfy`, `reproca_sessions.dfy`: each class's methods update their own fields as the registry functions say. The second copy also returns whether it would warn.
  - `cookie_fields.dfy`, `server_response.dfy`, `reproca_response.dfy`: the cookie field types and the two `Response` classes.

The random token and the clock are inputs:
- `secrets.token_urlsafe()` is the `sid` parameter of `Create`. `Fresh` states what a token satisfies: it is non-empty and names no session yet.
- `datetime.now()` is a `now` parameter, counted in microseconds.

A getter's `default` result is `None` of an `Option`.

## Model

| member | source | states |
|---|---|---|
| `LittleEndian.U64RoundTrip` | binary_format.py:38 | reading back `struct.pack("<Q", n)` gives n for every n below 2^64 |
| `LittleEndian.U64Injective` | binary_format.py:38 | every 8-byte string is the `<Q` packing of the number it reads as |
| `LittleEndian.I64RoundTrip` | binary_format.py:48 | reading back `struct.pack("<q", i)` gives i for every signed 64-bit i |
| `Wire.Written` | binary_format.py:97-150 | what `serialize` appends: at least the tag byte, with a container's size patched only when its body succeeds |
| `Wire.AsWritten` | binary_format.py:95-153 | what `serialize` as written appends: at least the tag byte, and a list never ends in the key TypeError, because its own `except TypeError` catches the one its body raises |
| `Wire.DecodeAt` | binary_format.py:36-79 | a successful read leaves the cursor past the tag and within the data |
| `WireProofs.EncodedSizeIsLength` | binary_format.py:97-150 | the bytes written for a value number exactly `EncodedSize(v)`, the count the decoder reports for it |
| `WireProofs.ContainerFraming` | binary_format.py:125-150 | a written list or mapping is its tag, then the u64 of exactly the body length, then the body |
| `WireProofs.WrittenItemsAppend` | binary_format.py:147-148 | writing a list body in two parts is writing the first, then the second unless the first failed |
| `WireProofs.WrittenEntriesAppend` | binary_format.py:130-137 | the same for a mapping body |
| `WireProofs.DecodeWritten` | binary_format.py:36-79 | any encoding of a value whose strings hold no zero byte, found anywhere in a stream, decodes in place to `Normalized(v)`; it consumes exactly its own length |
| `WireProofs.ListLoopWritten` | binary_format.py:61-67 | the `while i > 0` loop over a written list body reads every item; the items' counts sum to the size |
| `WireProofs.ObjectLoopWritten` | binary_format.py:70-77 | the mapping loop over a written body reads every entry; 4 bytes per key plus the items' counts sum to the size |
| `WireProofs.SkipValue` | binary_format.py:36-79 | a packed value inside any byte stream decodes to `Normalized(v)` and takes `EncodedSize(v)` bytes |
| `WireProofs.DecodeEncoding` | binary_format.py:156-165 | `value` over `pack(v)` reads `Normalized(v)` and reports, and consumes, the whole length of `pack(v)`, so `unpack(pack(v))` is `Normalized(v)` |
| `WireProofs.RoundTrip` | binary_format.py:156-165 | for a representable value, `value` over `pack(v)` gives `(v, len(pack(v)))`, so `unpack(pack(v)) == v` |
| `WireProofs.ScalarEncodings` | binary_format.py:98-106 | None, True and False pack to the single bytes 0x01, 0x02 and 0x03; each reads back with count 1 |
| `WireProofs.IntEncoding` | binary_format.py:107-110 | an int in signed 64 bits packs to 0x04 and 8 little-endian bytes, reading back as itself with count 9; any other int fails |
| `WireProofs.StringEncoding` | binary_format.py:115-119 | a string packs to 0x06, its bytes and 0x00; without a zero byte inside it, it reads back with count length + 2 |
| `WireProofs.EmptyString` | binary_format.py:115-119 | `""` packs to exactly 0x06 0x00 and reads back with count 2 |
| `WireProofs.BytesEncoding` | binary_format.py:120-124 | a byte string packs to 0x07, its u64 length and its bytes, reading back as itself with count length + 9 |
| `WireProofs.UnknownTagIsError` | binary_format.py:79 | a tag byte outside 0x01..0x09 is an error |
| `WireProofs.BadKeyStops` | binary_format.py:130-137 | the entry loop stops at the first entry whose key check fails: the mapping fails with that error, leaving its tag, its size placeholder and the earlier entries written |
| `WireProofs.NonStrKeyIsError` | binary_format.py:131-132 | a mapping whose key at any position i is not a string fails with the TypeError, after the tag, the size placeholder and its first i entries are written |
| `WireProofs.NonAsciiKeyIsError` | binary_format.py:133 | a mapping whose string key at any position i is not ASCII fails with the encoding error, after the tag, the size placeholder and its first i entries are written |
| `WireProofs.TruncatedBytesPayload` | binary_format.py:56-58 | a byte string whose stream ends after any k bytes of its payload, k short of its length, reads back as those k bytes, with the count of its declared size plus 9, and no error |
| `WireProofs.RStripZerosShape` | binary_format.py:73 | `rstrip("\x00")` leaves a prefix that is empty or ends in a non-zero byte, with only zeros removed |
| `WireProofs.RStripZerosPadding` | binary_format.py:135-136 | the zero bytes padding a key slot are what the decoder strips again |
| `WireProofs.StoredKeyIsCut` | binary_format.py:133-136 | a key reads back as its first four bytes with trailing zeros stripped |
| `WireProofs.StoredExactKey` | binary_format.py:73 | a key of at most four ASCII bytes and not ending in zero reads back as itself |
| `WireProofs.AssignNew` | binary_format.py:77 | assigning a key the mapping does not yet hold appends the entry |
| `WireProofs.AssignExisting` | binary_format.py:77 | assigning a key the mapping holds replaces that entry in place |
| `WireProofs.LaterKeyWins` | binary_format.py:77 | two entries with the same stored key read back as one entry holding the later item |
| `WireProofs.LookupAssign` | binary_format.py:77 | after `data[key] = item`, key maps to item and every other key keeps what it mapped to |
| `WireProofs.CollectOtherKeys` | binary_format.py:72-77 | entries none of whose keys is stored as K leave what K maps to unchanged |
| `WireProofs.LastKeyWins` | binary_format.py:68-78 | in a mapping of any size, the last entry whose key is stored as K decides what K maps to in the decoded mapping |
| `WireProofs.KeyCollision` | binary_format.py:68-78 | packing and reading back a two-entry mapping whose keys collide gives a one-entry mapping with the later item |
| `WireProofs.NormalizedIdentity` | binary_format.py:68-78 | a value whose keys are exact and distinct reads back as itself |
| `WireProofs.CollectIdentity` | binary_format.py:72-77 | assigning exact, distinct keys in order only appends |
| `WireProofs.ListOfThreeEncodes` | binary_format.py:141-151 | `[1, 2, 3]` packs into 36 bytes whose size field holds 27 |
| `WireProofs.ListOfThree` | binary_format.py:59-67 | `[1, 2, 3]` reads back as itself with count 36 |
| `WireProofs.SampleEncodes` | binary_format.py:176-181 | the module's sample mapping packs into 39 bytes |
| `WireProofs.SampleRepresentable` | binary_format.py:176-180 | the sample's keys are exact and distinct, and its strings hold no zero byte |
| `WireProofs.SampleRoundTrip` | binary_format.py:181-183 | the sample mapping reads back as itself with count 39 |
| `WireProofs.MappingKeyErrorAsWritten` | binary_format.py:125-132 | as written too, a mapping whose key is not a string fails with the TypeError after its tag and size placeholder; the mapping branch is outside the `try` |
| `WireProofs.AsWrittenItemsStops` | binary_format.py:146-148 | as written, a list body ends at the first item whose write fails, after the earlier items and what that item wrote |
| `WireProofs.ListSwallowsAt` | binary_format.py:141-153 | as written, when item i of a list raises the key TypeError, the list returns normally with its size field zero, after its first i items and what item i wrote, and leaves its later items unwritten |
| `WireProofs.AsWrittenAgrees` | binary_format.py:95-153 | as written and corrected write the same bytes and the same exception for every value whose corrected write does not end in the key TypeError |
| `WireProofs.ListOfTwoAsWritten` | binary_format.py:141-150 | as written, a list of two items that both succeed is its tag, the u64 of their combined length, then the two writes |
| `WireProofs.ListSwallowsKeyError` | binary_format.py:141-153 | as written, `pack([{k: x}])` with a non-string key k, such as `[{None: None}]`, succeeds with the bytes `08 00×8 09 00×8`, which read back as `[]` |
| `WireProofs.NestedListSwallows` | binary_format.py:141-153 | as written, `pack([[{k: x}], n])` with a non-string key k, such as `[[{None: None}], 5]`, succeeds with 36 bytes whose outer size field is 27: the inner list swallows the error and the outer list goes on; corrected, it fails with the TypeError |
| `WireProofs.NestedListReadsBack` | binary_format.py:59-79 | those 36 bytes read back as `[[], {}, 5]` with count 36 |
| `WireProofs.EmptyFrameAt` | binary_format.py:59-79 | a list or mapping tag followed by a zero size field, anywhere in a stream, reads as the empty container in 9 bytes |
| `WireProofs.EmptyListPrefix` | binary_format.py:59-67 | a list whose size field is zero reads as `[]` in 9 bytes, whatever follows |
| `WireProofs.ListPassesKeyError` | binary_format.py:141-153 | corrected: `pack([{k: x}])` with a non-string key k, such as `[{None: None}]`, fails with the key's TypeError |
| `BinaryFormat.ByteArray.Splice` | binary_format.py:139 | the slice assignment overwrites exactly the slice; the length and every other byte stay |
| `BinaryFormat.Serialize` | binary_format.py:97-153 | the buffer becomes its old bytes followed by `Written(v)`; the result is `Written(v)`'s exception |
| `BinaryFormat.Reserve` | binary_format.py:126-128 | appends the tag and eight zero bytes |
| `BinaryFormat.Backpatch` | binary_format.py:138-139 | turns the tag, placeholder and body into the framed container, or fails when the body length is out of u64 range |
| `BinaryFormat.SerializeList` | binary_format.py:141-151 | appends `Written(List(items))` and returns its exception |
| `BinaryFormat.SerializeItems` | binary_format.py:147-148 | the item loop appends the items' writes up to the first failure, and returns that failure |
| `BinaryFormat.SerializeObject` | binary_format.py:125-140 | appends `Written(Object(entries))` and returns its exception |
| `BinaryFormat.SerializeEntries` | binary_format.py:130-137 | the entry loop appends the entries' writes up to the first failure, and returns that failure |
| `BinaryFormat.SerializeEntry` | binary_format.py:131-137 | one entry: the key checks, the key cut and zero-padded to four bytes, then the item |
| `BinaryFormat.Pack` | binary_format.py:162-165 | `pack(v)` is `Encode(v)`: the written bytes, or the exception |
| `BinaryFormat.Stream.Read` | binary_format.py:40 | a read returns up to n bytes, fewer at the end of the stream, and advances the cursor by as many |
| `BinaryFormat.Stream.SeekTo` | binary_format.py:86 | an absolute move of the cursor |
| `BinaryFormat.ReadValue` | binary_format.py:36-79 | reads what `DecodeAt` says at the cursor and, on success, leaves the cursor where `DecodeAt` says |
| `BinaryFormat.ReadPayload` | binary_format.py:41-79 | the tag dispatch |
| `BinaryFormat.ReadU64` | binary_format.py:37-38 | `u64()` succeeds exactly when eight bytes remain; it returns their `<Q` value or fails as truncated |
| `BinaryFormat.ReadInt` | binary_format.py:47-48 | the INT payload as `DecodeInt` |
| `BinaryFormat.ReadFloat` | binary_format.py:49-50 | the FLOAT payload as `DecodeFloat` |
| `BinaryFormat.ReadString` | binary_format.py:51-55 | the byte loop up to the zero byte, as `DecodeString` |
| `BinaryFormat.ReadBytes` | binary_format.py:56-58 | the BYTES payload as `DecodeBytes` |
| `BinaryFormat.ReadList` | binary_format.py:59-67 | the `while i > 0` item loop, as `DecodeList` |
| `BinaryFormat.ReadObject` | binary_format.py:68-78 | the `while i > 0` entry loop, as `DecodeObject` |
| `BinaryFormat.ReadObjectEntry` | binary_format.py:73-77 | one entry: a four-byte ASCII key, stripped, then an item |
| `BinaryFormat.Unpack` | binary_format.py:156-158 | `unpack` of bytes is the value `DecodeAt(data, 0)` reads, or its error |
| `BinaryFormat.UnpackStream` | binary_format.py:159 | `unpack` of a stream is the value read at its cursor, or the error |
| `BinaryFormat.Seek` | binary_format.py:82-94 | an empty path fails. An index step raises `NotImplementedError` and leaves the stream. A key step does as the code does: skip a byte, compare three bytes, and for INT or FLOAT move to absolute position 8 |
| `SessionRegistry.ElapsedDays` | reproca_server/reproca/sessions.py:24 | `timedelta.days` is the floor of the elapsed time in days |
| `SessionRegistry.IsExpired` | reproca_server/reproca/sessions.py:23-24 | a session is expired exactly when at least 16 full days have passed, that is more than `SESSION_VALID_FOR_DAYS` = 15 whole days |
| `SessionRegistry.EmptyInverse` | reproca_server/reproca/sessions.py:30-32 | the empty registry satisfies the inverse-map invariant |
| `SessionRegistry.OneSessionPerUser` | reproca_server/reproca/sessions.py:31-32 | under the invariant no user owns two sessions |
| `SessionRegistry.CreateInverse` | reproca_server/reproca/sessions.py:34-44 | `create` with a fresh id keeps `users` and `sessions` inverse |
| `SessionRegistry.RemoveByUserIdInverse` | reproca_server/reproca/sessions.py:46-52 | `remove_by_userid` keeps them inverse |
| `SessionRegistry.RemoveBySessionIdInverse` | reproca_server/reproca/sessions.py:54-60 | `remove_by_sessionid` keeps them inverse |
| `SessionRegistry.CreateThenGet` | reproca_server/reproca/sessions.py:34-44 | after `s := create(u, x)` with a non-empty s, both `get_by_sessionid(s)` and `get_by_userid(u)` return x |
| `SessionRegistry.CreateWithEmptyId` | reproca_server/reproca/sessions.py:64 | were the id empty, `get_by_userid` would miss, by its truth test |
| `SessionRegistry.CreateReplaces` | reproca_server/reproca/sessions.py:40 | `create` drops the user's previous session; its id names nothing afterwards |
| `SessionRegistry.CreateFrame` | reproca_server/reproca/sessions.py:40-43 | `create` leaves every other user's lookup and every other session's lookup as it was |
| `SessionRegistry.RemoveByUserIdEffect` | reproca_server/reproca/sessions.py:46-52 | after `remove_by_userid(u)` u and its old session id miss; other users and sessions are untouched |
| `SessionRegistry.RemoveBySessionIdEffect` | reproca_server/reproca/sessions.py:54-60 | after `remove_by_sessionid(s)` s and its owner miss; other users and sessions are untouched |
| `SessionRegistry.RemovesAgree` | reproca_server/reproca/sessions.py:46-60 | under the invariant, removing a user's session by its id equals removing it by the user id |
| `SessionRegistry.RemoveByUserIdMiss` | reproca/sessions.py:39-45 | under the invariant the KeyError (and the warning) happens exactly when the user has no session, and exactly when nothing changes |
| `SessionRegistry.RemoveBySessionIdMiss` | reproca/sessions.py:47-53 | the same for an unknown session id |
| `SessionRegistry.GettersAgree` | reproca_server/reproca/sessions.py:62-73 | under the invariant both getters return the same user for a session with a non-empty id |
| `SessionRegistry.GetByUserIdFound` | reproca_server/reproca/sessions.py:62-67 | under the invariant `get_by_userid` finds a user exactly when it has a non-empty session id, and returns that session's user |
| `ServerSessions.Sessions.constructor` | reproca_server/reproca/sessions.py:30-32 | both dictionaries start empty, and so inverse |
| `ServerSessions.Sessions.Create` | reproca_server/reproca/sessions.py:34-44 | returns the new id; the dictionaries become `Create` of the old ones; the invariant holds after a fresh id |
| `ServerSessions.Sessions.RemoveByUserId` | reproca_server/reproca/sessions.py:46-52 | the dictionaries become `RemoveByUserId` of the old ones; the invariant is kept |
| `ServerSessions.Sessions.RemoveBySessionId` | reproca_server/reproca/sessions.py:54-60 | the dictionaries become `RemoveBySessionId` of the old ones; the invariant is kept |
| `ServerSessions.Sessions.GetByUserId` | reproca_server/reproca/sessions.py:62-67 | returns `GetByUserId` of the dictionaries and changes nothing |
| `ServerSessions.Sessions.GetBySessionId` | reproca_server/reproca/sessions.py:69-73 | returns `GetBySessionId` of the dictionaries and changes nothing |
| `ReprocaSessions.Sessions.constructor` | reproca/sessions.py:28-30 | both dictionaries start empty, and so inverse |
| `ReprocaSessions.Sessions.Create` | reproca/sessions.py:32-37 | as the other copy, and warns exactly when the user had no session to remove |
| `ReprocaSessions.Sessions.RemoveByUserId` | reproca/sessions.py:39-45 | as the other copy, and warns exactly when a pop misses |
| `ReprocaSessions.Sessions.RemoveBySessionId` | reproca/sessions.py:47-53 | as the other copy, and warns exactly when a pop misses |
| `ReprocaSessions.Sessions.GetByUserId` | reproca/sessions.py:55-60 | returns `GetByUserId` of the dictionaries and changes nothing |
| `ReprocaSessions.Sessions.GetBySessionId` | reproca/sessions.py:62-66 | returns `GetBySessionId` of the dictionaries and changes nothing |
| `ServerResponse.Response.constructor` | reproca_server/reproca/response.py:12-26 | no cookies and no headers |
| `ServerResponse.Response.SetCookie` | reproca_server/reproca/response.py:28-53 | appends exactly one tuple of the arguments in order, with the source's defaults; earlier cookies and the headers are unchanged |
| `ServerResponse.Response.SetSession` | reproca_server/reproca/response.py:55-62 | appends `("reproca_session_id", sid, None, None, "/", None, True, True, "strict")`; headers unchanged |
| `ServerResponse.Response.UnsetSession` | reproca_server/reproca/response.py:64-71 | appends the same record with value `""`; headers unchanged |
| `ReprocaResponse.Response.Cookies` | reproca/response.py:62-64 | the `cookies` property is the stored list |
| `ReprocaResponse.Response.Headers` | reproca/response.py:66-68 | the `headers` property is the stored dictionary |
| `ReprocaResponse.Response.constructor` | reproca/response.py:25-27 | `cookies` and `headers` start empty |
| `ReprocaResponse.Response.SetCookie` | reproca/response.py:29-42 | appends exactly one `Cookie` whose fields are the arguments in order, with the source's defaults; earlier cookies and the headers are unchanged |
| `ReprocaResponse.Response.SetSession` | reproca/response.py:44-51 | appends the session cookie: key `"reproca_session_id"`, value sid, path `"/"`, secure, HTTP-only, samesite `"strict"`; headers unchanged |
| `ReprocaResponse.Response.UnsetSession` | reproca/response.py:53-60 | appends the same cookie with value `""`; headers unchanged |

## Left out

- FLOAT payloads are eight opaque bytes; the model has no IEEE 754 arithmetic, and `struct.pack("<d")` of a Python float cannot fail.
- Strings are their UTF-8 bytes.
  - `str.encode("utf-8")` of a lone surrogate is not modelled.
  - BinaryFormat.ReadString, Wire.DecodeString and Wire.DecodeAt: do not raise `UnicodeDecodeError` for bytes that are not valid UTF-8; a STRING payload comes back as its bytes, whatever they are.
- `serialize` takes any Python object; the model takes the closed `Value` type.
  - Other iterables are modelled as lists, other mappings as mappings, and `bytes`/`bytearray`/`memoryview` as `Bytes`.
  - A non-iterable object, which the list branch's `except TypeError` turns into "write nothing", has no counterpart.
- `BinaryFormat.SerializeList` follows the corrected list branch; see Findings. The code as written is the pure function `Wire.AsWritten`, in which the innermost list around a mapping with a non-string key swallows the error; the imperative codec does not have an as-written counterpart.
- `unpack` and `value` accept any binary stream. The model is an in-memory stream whose short reads at the end behave like `BytesIO`.
- Malformed input is modelled as the code behaves, not as an error. A BYTES payload cut short is returned short. A container loop whose remainder drops below zero just stops.
- `hexdump` and the module's demo prints are output only, and not modelled. Their sample mapping is used in `SampleRoundTrip`.
- BinaryFormat.ByteArray.Splice: requires the slice to lie inside the buffer. Python's slice assignment would also resize the buffer, but the backpatch's slice always lies inside it.
- `warnings.warn` becomes the `warned` result of the second copy's methods. The message text is not modelled.
- The clock and the randomness are parameters. `token_urlsafe` is only assumed to give a fresh, non-empty token, through `Fresh`.
- `Session` objects are taken to be always true in the getters' truth tests (a `msgspec.Struct` defines no length or truth).
- `cookies` and `headers` are values in the model. The list object the `cookies` property hands out, and changes a caller makes through it, are not modelled.
- The generic type parameter `D` of the getters' `default` becomes `Option`: `None` means "returns `default`".
- The rest of the repository is not part of this model: the web application, the TypeScript transpiler and the package initialiser.

## Findings

| source | as written | input that shows it | evidently intended | confidence | as-written member | corrected member |
|---|---|---|---|---|---|---|
| binary_format.py:141-153 | the list branch's `except TypeError: pass`, meant for a value `iter` refuses, also catches the TypeError a non-string mapping key raises inside the list; the innermost list around that mapping returns normally with its size field left zero and its later items unwritten, and whatever encloses it goes on writing | `pack([{None: None}])` returns `08 00×8 09 00×8` without an error, and `unpack` of it gives `[]`; `pack([[{None: None}], 5])` returns 36 bytes that `unpack` reads as `[[], {}, 5]` | the key's TypeError propagates out of the list, as it does outside a list | medium, not executed | `WireProofs.ListSwallowsKeyError`, `WireProofs.NestedListSwallows` | `WireProofs.ListPassesKeyError` |
