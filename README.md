# Room synchronisation and download naming of a collaborative code editor

This project models two parts of a real-time collaborative code editor in Dafny and proves properties of them.

The first part is the server's room synchronisation engine (`server.js`). Clients join a named room. The server keeps three dictionaries keyed by room id:

- `roomData`: the latest code of the room.
- `roomLang`: the latest language of the room.
- `roomMessages`: the chat transcript of the room.

socket.io keeps the set of sockets in each room. The server answers five socket events: `join-room`, `chat-message`, `editor-update`, `language-update` and `disconnect`. Each handler runs to completion on the single-threaded event loop. So the model is one class, `Server.RoomServer`. Its fields are the three dictionaries and the member sets. Its methods are the handlers. Each handler returns the list of deliveries it emits, and each delivery is a socket paired with an event.

The second part is client code in `src/components/Editor/Editor.jsx`:

- How `downloadScript` picks the download's file name and MIME type: a default name, the text after the last `.`, and a lookup table.
- The `onSelect` state update of the language selector.

Files:

- `wrappers.dfy`: the `Option` datatype. `None` stands for JavaScript's `undefined`.
- `server.dfy`: module `Server`. It holds the events, the pure functions that specify each state change and each reply, the broadcast loop `FanOut`, the `RoomServer` class, and verified sessions built from the handler methods.
- `editor.dfy`: module `Editor`. It holds `split`/`join` with their round trips, the extension, the MIME table, `downloadScript`, and the `CodeEditor` state class.

## Behaviour of the handlers worth knowing


- **`editor-initialization` depends on the count found, not on join order.** The `join-room` handler reads the room's member count *before* joining (server.js:73-77). A joiner gets `editor-initialization` exactly when it finds one member (server.js:78). For any other count it takes the snapshot branch (server.js:80-91), and that includes a count of 0. In a fresh room the first joiner therefore gets nothing and the second gets `editor-initialization`. The dictionaries are never cleared, so a socket joining a room whose members have all left finds count 0 and is sent the room's leftover code. A joiner that finds one member after others have left gets `editor-initialization` however many joined before it. `Server.SessionOpening`, `Server.SessionThirdJoin`, `Server.SessionRejoinEmptiedRoom` and `Server.SessionFourthJoinAtOne` prove these cases for concrete sessions.
- **Updates echo to the sender.** `editor-update` and `language-update` broadcast with `io.to(room)`, the same as `chat-message`. That reaches every socket in the room, the sender included (server.js:104, server.js:109).
- **Snapshot guards are JavaScript truthiness.** A stored code or language that is the empty string is never sent. `chat-history` is sent whenever a transcript exists for the room: an array is truthy even when empty. A transcript is only created together with its first message, so `Server.RoomServer.Valid` shows that an existing transcript is never empty.
- **Disconnect.** The `disconnect` handler only logs (server.js:112-115). What removes the socket from its rooms is socket.io itself. It drops the socket from every room and deletes a room that is left empty. `Server.RemoveConnection` models that. The three dictionaries are never cleared, so a room that empties keeps its code, language and chat.

## Model

| member | source | states |
|---|---|---|
| `Server.MemberCount` | server.js:73-74 | The count is the size of the room's member set, and 0 when the adapter has no set for the room. |
| `Server.AddMember` | server.js:77 | After `socket.join(r)`, the joiner is a member of r. r's count grows by exactly one unless the joiner was already a member. Every other room's members are unchanged; joining a room does not leave another. |
| `Server.RemoveConnection` | server.js:112-115 | On disconnect the socket leaves every room. Each room it was in loses exactly one member. No other room changes. No empty room is kept. |
| `Server.AppendMessage` | server.js:96-99 | The transcript of r becomes its old contents (empty if there were none) with the message appended. Every other room's transcript, and whether it exists, is unchanged. Transcripts remain non-empty. |
| `Server.TranscriptIsArrivalOrder` | server.js:95-99 | After any series of chat messages for r, r's transcript is the earlier transcript followed by those messages in arrival order. |
| `Server.ReceiveAllOtherRooms` | server.js:95-99 | A series of chat messages for r leaves every other room's transcript, and whether it exists, unchanged. |
| `Server.ToSocket` | server.js:79-89 | The successive `socket.emit` calls of `join-room` deliver each event to the joining socket alone, one delivery per event, in emit order. |
| `Server.JoinReply` | server.js:78-91 | Every event names the joined room. With pre-join count 1 the joiner gets exactly `[editor-initialization]`. With any other count it gets only snapshot events. It gets `editor-update-return` with the stored code iff that code is present and non-empty. It gets `chat-history` with the stored transcript iff a transcript exists. It gets `language-update-return` with the stored language iff that language is present and non-empty. The number of events is the number of guards that hold. A `chat-history` never carries an empty transcript while transcripts stay non-empty. |
| `Server.FanOut` | server.js:100 | The broadcast `io.to(r).emit(e)` delivers e exactly once to each member of r and to nobody else. |
| `Server.RoomServer.constructor` | server.js:22-24 | The server starts with three empty dictionaries and no rooms. |
| `Server.RoomServer.JoinRoom` | server.js:72-92 | The handler reads the member count before adding the joiner. It adds the joiner to the room and changes no dictionary. It sends the joiner exactly the `JoinReply` events for that pre-join count and the stored state, in order. |
| `Server.RoomServer.ChatMessage` | server.js:95-101 | The transcript is updated as `AppendMessage` says; the code, language and membership are unchanged. `chat-message-return` goes to every member of the room exactly once. The sender receives it iff it is a member. |
| `Server.RoomServer.EditorUpdate` | server.js:102-105 | Only the room's stored code changes, and it becomes the new value. `editor-update-return` goes to every member exactly once, the sender included when it is a member. |
| `Server.RoomServer.LanguageUpdate` | server.js:107-110 | Only the room's stored language changes, and it becomes the new language. `language-update-return` goes to every member exactly once, the sender included when it is a member. |
| `Server.RoomServer.Disconnect` | server.js:112-115 | No dictionary changes and nothing is sent. The socket's membership is removed as `RemoveConnection` says. |
| `Server.SessionOpening` | server.js:72-105 | In a fresh server: X joins and is sent nothing. X's code update is echoed back to X alone. Y then joins and gets `editor-initialization` instead of X's code. Y's chat message reaches both X and Y. |
| `Server.SessionThirdJoin` | server.js:72-92 | After that opening, a third socket joining gets the stored code and then the one-message chat history. It does not get `editor-initialization`. |
| `Server.SessionRejoinEmptiedRoom` | server.js:72-115 | X joins, sends non-empty code and disconnects. A socket then joining the emptied room finds count 0 and gets exactly that leftover code. |
| `Server.SessionTwoLeave` | server.js:72-115 | After A, B and C join a fresh room and B and C disconnect, A is the room's only member. |
| `Server.SessionFourthJoinAtOne` | server.js:72-92 | After that, D, the fourth socket to join, finds one member and gets exactly `[editor-initialization]`, not the snapshot. |
| `Editor.Split` | src/components/Editor/Editor.jsx:90 | `filename.split(".")` always has at least one piece; with `SplitPieces`, `JoinSplit` and `SplitJoin` it is the unique list of separator-free pieces that joins back to the string. |
| `Editor.SplitPieces` | src/components/Editor/Editor.jsx:90 | No piece of `split(sep)` contains the separator. There is a single piece, the whole string, exactly when the string has no separator. |
| `Editor.JoinSplit` | src/components/Editor/Editor.jsx:90 | Joining the pieces of a split with the separator gives back the original string. |
| `Editor.SplitJoin` | src/components/Editor/Editor.jsx:90 | Splitting a join of separator-free pieces gives back those pieces, so `split` is the only such decomposition. |
| `Editor.LastPiece` | src/components/Editor/Editor.jsx:90 | The last element of `split(sep)`, which is what `pop()` returns, is a suffix of the string. Either it is the whole string, or the character just before it is the separator. |
| `Editor.Last` | src/components/Editor/Editor.jsx:90 | `.pop()` on the split, which is never empty, returns the element it removes from the end: the array is the remaining elements followed by the result. `LastPiece` states it is the suffix of the string after the last separator, or the whole string. |
| `Editor.Extension` | src/components/Editor/Editor.jsx:90 | The extension is the dot-free suffix after the last `.`. It is the whole name when there is no dot and empty when the name ends with a dot. |
| `Editor.ExtensionUnique` | src/components/Editor/Editor.jsx:90 | Any dot-free suffix that is the whole name or follows a `.` is the extension, so the contract of `Extension` pins it down exactly. |
| `Editor.MimeTypeFor` | src/components/Editor/Editor.jsx:82-91 | The six table extensions map to their listed MIME strings, and any other extension maps to `text/plain`. The result is always one of the six distinct MIME strings of the table. |
| `Editor.DownloadScript` | src/components/Editor/Editor.jsx:80-93 | The file name is `fileType` unchanged when it is a non-empty string, and `file.txt` otherwise, so it is never empty. The MIME type is the table's entry for the file name's extension. The content is passed through. |
| `Editor.DefaultNameExtension` | src/components/Editor/Editor.jsx:81 | The default name `file.txt` has extension `txt`. |
| `Editor.DefaultDownload` | src/components/Editor/Editor.jsx:81-91 | An undefined or empty `fileType` downloads as `file.txt` with type `text/plain`. |
| `Editor.DownloadUsesTable` | src/components/Editor/Editor.jsx:81-91 | A name `stem.ext` whose `ext` is in the table downloads with that extension's MIME type, whatever dots `stem` contains. |
| `Editor.CodeEditor.constructor` | src/components/Editor/Editor.jsx:22-23 | The editor starts with language `javascript` and an empty value. |
| `Editor.CodeEditor.OnSelect` | src/components/Editor/Editor.jsx:37-42 | After `onSelect(l)` the language is l and the value is `CODE_SNIPPETS[l]`, or undefined when l has no snippet. |

## Left out

- Express, MongoDB, Redis and CORS setup, route mounting and server start (server.js:26-58, server.js:122-140): these are I/O and connection plumbing.
- The socket.io transport and the server's logging (server.js:75, server.js:114). Emits are modelled as returned delivery lists.
- The room socket.io creates for each socket under its own id. A room id that equals some socket's id would count that socket as a member; this is not modelled.
- The order in which a broadcast reaches the members is not fixed: `FanOut` picks members in an arbitrary order, and its contract does not depend on it.
- Event payloads are modelled as strings: code, language, chat message, room id and `fileType`. Other JavaScript values and malformed payloads are not modelled. Examples are `null`, numbers, objects, and a payload that cannot be destructured into `{room, ...}`.
- Keys inherited from `Object.prototype` by the plain objects used as dictionaries and as the MIME table are not modelled. Examples are `constructor` and `__proto__`. The model treats each object as holding only its own entries.
- `runCode` (Editor.jsx:52-78): an asynchronous call to an external execution service.
- The Blob, object URL and DOM anchor steps of `downloadScript` (Editor.jsx:93-103): browser side effects. `Download` records the name, type and content they are given.
- The client's socket wiring and all JSX rendering in Editor.jsx (lines 15-18, 44-50, 106-153): user interface.
- The contents of `CODE_SNIPPETS` and `FILE_EXTENSIONS`: src/constants.js is not part of this model. `CODE_SNIPPETS` is a parameter of `CodeEditor`, and `fileType` is a parameter of `DownloadScript`.
- src/components/Modal/SignUp.jsx (presentation only) and database/Routes/auth.js (router wiring to controllers that are not shown).
- `Split` models `String.prototype.split` only with a one-character separator and no limit, the one use here.
