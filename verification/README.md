# Register store of a modal-editing extension

This project models the register store of a Vim emulator for a code editor
(`src/register/register.ts`). The store is a process-wide table from register
names to entries. An entry holds three things:

- the content: a string, a list of lines, or a recorded macro;
- a register mode: `FigureItOutFromCurrentMode`, `CharacterWise`, `LineWise` or `BlockWise`;
- a flag saying whether the register is backed by the system clipboard.

The store starts with the unnamed register `"` and the clipboard registers `*`
and `+`. It has these operations:

- `isValidRegister`, the name test;
- `isValidRegisterForMacro`, the macro-name test;
- `put` and `putByKey`, which write;
- `add`, which appends a line;
- `get` and `getByKey`, which read and create a blank entry on first use;
- `has` and `getKeys`, which look names up and list them.

In the model the static table is an explicit immutable value, `Registers.Store`.
Every operation takes the store and returns the new one. A thrown
`Invalid register <name>` becomes `Failure(InvalidRegister(name))`.

The caller's state is passed in as parameters:

- the register name the command selected;
- its effective register mode;
- for reads, the text the system clipboard holds.

A write to a clipboard register reports the content it mirrors to the clipboard.

The store also keeps the order in which names were created. `getKeys` returns
JavaScript's own-key order for a plain object: names that are array indices
(`"0"`, `"7"`, `"42"`) come first in ascending numeric order. All other names
follow in creation order. The source never deletes a register.

Modules:

- `Wrappers` (`wrappers.dfy`): `Option` and `Result`.
- `RegisterNames` (`names.dfy`): the ASCII character classes behind the two name patterns.
- `KeyOrder` (`key_order.dfy`): JavaScript's own-key order, with a filter and an insertion sort.
- `Registers` (`register.dfy`): the data model and the operations.
- `RegisterProperties` (`register_properties.dfy`): lemmas that relate operations.

`Registers.Wf` is the invariant of every store reachable from `Initial`:

- the creation order lists each name exactly once;
- the three initial registers exist;
- an entry is clipboard-backed exactly when its name is `*` or `+`;
- every other name is alphanumeric or contains a dot.

Every operation preserves `Wf`.

In a few places the code differs from Vim's own registers, and the model follows the code:

- Register names are not limited to one character. Any non-empty ASCII alphanumeric string is accepted, and so is any string containing a dot.
- The append primitive `add` extends a list of lines. On a register holding a plain string it does nothing.
- Reads are asynchronous in the code. The model treats a read as one step, taking the clipboard text as a parameter.

## Model

| member | source | states |
|---|---|---|
| Registers.Initial | src/register/register.ts:35-39 | The start-up store is well formed and holds exactly `"`, `*` and `+`, each with empty text and `CharacterWise`. |
| Registers.IsClipboardRegister | src/register/register.ts:42-45 | A name without an entry is not a clipboard register. In a well-formed store, exactly `*` and `+` are clipboard registers. |
| Registers.IsValidRegister | src/register/register.ts:52-54 | Every existing name and every letter name is accepted. The empty name is accepted only if it is already a key. |
| Registers.IsValidRegisterForMacro | src/register/register.ts:56-58 | A macro name is alphanumeric, has no dot, and is accepted by every store. |
| RegisterNames.LetterNameIsAlnumName | src/register/register.ts:53-57 | A name made only of ASCII letters matches the alphanumeric pattern and contains no dot. |
| Registers.Put | src/register/register.ts:64-80 | Fails with `InvalidRegister(name)` exactly when the name is not accepted. On success only `name` changes: it gets the given content and mode and keeps its clipboard flag, and a new entry gets the flag clear. A clipboard register mirrors the content to the clipboard. Well-formedness is preserved. |
| Registers.PutByKey | src/register/register.ts:82-96 | Like `Put`, with the explicit mode stored unchanged. In a well-formed store a write to the unnamed register never fails. |
| Registers.StoredMode | src/register/register.ts:93 | The `\|\|` default never changes a supplied mode, because the only falsy mode is `FigureItOutFromCurrentMode` itself. |
| Registers.Add | src/register/register.ts:98-110 | Fails exactly on a name that is not accepted. On a line list, appends the line at the end and keeps everything else. On a string, changes nothing. Mode, flag, names and order never change. |
| Registers.GetByKey | src/register/register.ts:122-153 | Fails exactly on a name that is not accepted. An absent name gets the blank `CharacterWise` entry, which is returned. A present, non-clipboard name leaves the store unchanged. A clipboard register returns the clipboard text with its mode and flag kept. Nothing else changes, and well-formedness is preserved. |
| Registers.Get | src/register/register.ts:117-120 | Reading the selected register fails exactly on a name that is not accepted. Afterwards the store has the register. |
| Registers.Has | src/register/register.ts:155-157 | A name with an entry is always accepted. |
| Registers.GetKeys | src/register/register.ts:159-161 | The listing is a permutation of the creation order. In a well-formed store it lists exactly the names with entries, each once. |
| KeyOrder.OwnKeys | src/register/register.ts:160 | The own-key listing holds the same keys as the creation order, each as often, and keeps duplicate-freedom. |
| KeyOrder.OwnKeysIndicesFirst | src/register/register.ts:160 | In the listing, an array-index key is preceded only by array-index keys of no larger value. |
| KeyOrder.OwnKeysNewNamedKey | src/register/register.ts:160 | A key created last that is not an array index is listed last. |
| KeyOrder.OwnKeysNamedInCreationOrder | src/register/register.ts:160 | Two keys that are not array indices are listed in the order they were created, whatever index keys are present. |
| Registers.MessageInjective | src/register/register.ts:68 | The error message `Invalid register <name>` determines the name: distinct errors have distinct messages. |
| KeyOrder.OwnKeysWithoutIndices | src/register/register.ts:160 | Without array-index keys, the listing is the creation order. |
| RegisterProperties.PutThenGetByKey | src/register/register.ts:75-79 | After `put` on an accepted, non-clipboard name, `getByKey` returns the stored content and mode with the flag clear and does not change the store. |
| RegisterProperties.PutByKeyThenGetByKey | src/register/register.ts:91-95 | The same round trip through `putByKey` with an explicit name and mode. |
| RegisterProperties.ClipboardWriteThenRead | src/register/register.ts:137-152 | A write to `*` or `+` is mirrored to the clipboard. A later read returns the clipboard's text with the written mode and the flag set. |
| RegisterProperties.PutByKeyDefaults | src/register/register.ts:82 | `putByKey` without a name or mode writes `"` with `FigureItOutFromCurrentMode`. It succeeds and mirrors nothing. |
| RegisterProperties.InvalidNameRejected | src/register/register.ts:67-69 | On a name that is not accepted, `put`, `putByKey`, `add`, `getByKey` and `get` all fail with the same `Invalid register <name>` error. |
| RegisterProperties.ValidNames | src/register/register.ts:52-54 | In a well-formed store, a name is accepted if and only if it is `"`, `*`, `+`, an alphanumeric name, or a dotted name. This does not depend on what has been written. |
| RegisterProperties.EmptyNameInvalid | src/register/register.ts:53 | A well-formed store never accepts the empty name. |
| RegisterProperties.SingleCharacterNames | src/register/register.ts:52-54 | The accepted one-character names are exactly: ASCII letters and digits, `.`, `"`, `*` and `+`. |
| RegisterProperties.ValidityPersists | src/register/register.ts:53 | A name accepted before a write or read is still accepted after it. |
| RegisterProperties.GetByKeyIdempotent | src/register/register.ts:129-152 | A second read with the same clipboard text returns the same entry and changes nothing. |
| RegisterProperties.PutOverwrites | src/register/register.ts:75-79 | Writing twice to the same name gives the same store as writing only the second value. |
| RegisterProperties.AddThenGetByKey | src/register/register.ts:105-109 | After `add` on a non-clipboard line-list register, a read returns the old lines followed by the new one. Mode and flag are unchanged. |
| RegisterProperties.InitialKeys | src/register/register.ts:35-39 | At start-up `getKeys` lists `"`, `*`, `+` in that order. |
| RegisterProperties.NewNameListedLast | src/register/register.ts:75 | Writing a new name that is not an array index appends it to the end of `getKeys`. |
| RegisterProperties.ReadCreatesBlank | src/register/register.ts:129-135 | Reading an accepted, absent name returns `{"", CharacterWise, not clipboard}`. Afterwards the store has the name, lists it, and does not treat it as a clipboard register. |

## Left out

- Clipboard input and output: the `copy-paste` process calls at src/register/register.ts:72, 88 and 139-147. A write reports what it would copy. A read takes the clipboard text as a parameter. A failing paste, which rejects the read, is not modelled.
- `RecordedState` and `vimState.effectiveRegisterMode()`: these belong to the mode handler, which is not part of this model. A macro is kept as an opaque key log. The register name and the effective mode are parameters.
- `lastContentChange` (src/register/register.ts:50): declared but not read or written in this file.
- Object identity: the source stores the caller's array and returns the live entry object. Later mutation through those references, including `add`'s in-place `push`, is visible to every holder. The model has value semantics.
- Names inherited from `Object.prototype`: JavaScript's `in` and property lookup also see names such as `__proto__` and `toString`. The model's key test sees only the store's own entries.
- Asynchrony: `get` and `getByKey` return promises. Each is modelled as one atomic step.
- Registers.Put: in the source, a name first created by `put` stores the result of `isClipboardRegister` for a missing entry (src/register/register.ts:44, 78). That result is `undefined`, not `false`. The model stores `false`; every test of the flag in the code treats the two the same way.
- Registers.PutByKey: a name first created by `putByKey` likewise holds `undefined` as its clipboard flag in the source (src/register/register.ts:44, 94). The model uses `false`, which every test of the flag treats the same way.
- RegisterProperties.PutThenGetByKey: for a name the write created, the source's read returns the flag `undefined` where the lemma states `false`. Every test of the flag treats the two the same way.
- RegisterProperties.PutByKeyThenGetByKey: for a name `putByKey` created, the source's read returns the flag `undefined` where the lemma states `false`. Every test of the flag treats the two the same way.
- Registers.Add: the source dereferences the entry without checking that it exists, and calls `push` on whatever non-string it holds. The model therefore requires an accepted name to have an entry that is not a macro, and gives no behaviour for the crash.
- src/neovim/neovim.ts: process spawning, RPC and buffer syncing, all asynchronous input and output.
- src/util.ts: editor message pop-ups and timers.
- src/cmd_line/commands/quit.ts, src/cmd_line/commands/wall.ts and src/cmd_line/subparser.ts: thin dispatch to host commands.
- src/mode/modeVisual.ts, src/mode/modeVisualLine.ts and src/globals.ts: display metadata and constants.
- The test files: they exercise the mode handler, motions and key-notation normaliser through the editor. Those sources are not part of this model.
