/**
 * The process-wide register store: a table from register names to entries,
 * each holding the content, how it was copied (by character, line or block)
 * and whether the register is backed by the system clipboard. The table is an
 * explicit value here; every operation takes the store and returns the new one,
 * and the exception `Register` throws for a bad name is a `Failure`.
 */
module Registers {
  import opened Wrappers
  import opened RegisterNames
  import opened KeyOrder

  /** How the content was copied. `FigureItOutFromCurrentMode` asks the paste to decide. */
  datatype RegisterMode = FigureItOutFromCurrentMode | CharacterWise | LineWise | BlockWise

  /** The number the enumeration gives each mode, counting from 0. */
  function Ordinal(m: RegisterMode): nat {
    match m
    case FigureItOutFromCurrentMode => 0
    case CharacterWise => 1
    case LineWise => 2
    case BlockWise => 3
  }

  /**
   * The mode `putByKey` stores for an explicit argument `m`: JavaScript's
   * `m || FigureItOutFromCurrentMode`, which replaces only a falsy (zero) mode.
   * The only zero mode is `FigureItOutFromCurrentMode` itself, so the mode is kept.
   */
  function StoredMode(m: RegisterMode): (r: RegisterMode)
    ensures r == m
  {
    if Ordinal(m) != 0 then m else FigureItOutFromCurrentMode
  }

  /** A recorded command sequence (a macro). Its structure belongs to the mode
      handler; the store only keeps it, so the model carries its key log. */
  datatype RecordedState = RecordedState(keys: seq<string>)

  /** What a register holds: a string, a list of lines, or a recorded macro. */
  datatype Content = Text(text: string) | Lines(lines: seq<string>) | Macro(recorded: RecordedState)

  datatype Entry = Entry(content: Content, mode: RegisterMode, isClipboardRegister: bool)

  /** The register table; `order` lists its names in the order they were created
      (the `Register` class never removes a register). */
  datatype Store = Store(entries: map<string, Entry>, order: seq<string>)

  /** The error thrown as `Invalid register <name>`. */
  datatype Error = InvalidRegister(name: string)

  function Message(e: Error): string {
    "Invalid register " + e.name
  }

  /** The message names the register: distinct errors have distinct messages. */
  lemma MessageInjective(e1: Error, e2: Error)
    ensures Message(e1) == Message(e2) ==> e1 == e2
  {
    var prefix := "Invalid register ";
    if Message(e1) == Message(e2) {
      assert e1.name == Message(e1)[|prefix|..];
      assert e2.name == Message(e2)[|prefix|..];
    }
  }

  /** A write: the new store, and the content mirrored to the system clipboard, if any. */
  datatype Written = Written(store: Store, copied: Option<Content>)

  /** A read: the new store and the entry read. */
  datatype Read = Read(store: Store, entry: Entry)

  /** The unnamed register, the default for writes. */
  const Unnamed: string := "\""

  /** The two registers backed by the system clipboard. */
  const ClipboardNames: set<string> := {"*", "+"}

  /** The entry of a register nobody has written yet. */
  const Blank: Entry := Entry(Text(""), CharacterWise, false)

  /** The names a well-formed store may hold: the three it starts with and the
      names every store accepts by their spelling. */
  predicate IsNameByPattern(name: string) {
    IsAlnumName(name) || ContainsDot(name)
  }

  /**
   * What every store reachable from `Initial` satisfies: `order` lists each
   * name once; the three initial registers exist; an entry is clipboard-backed
   * exactly when its name is `*` or `+`; every other name matches a name pattern.
   */
  ghost predicate Wf(s: Store) {
    && NoDups(s.order)
    && (forall k :: k in s.order <==> k in s.entries)
    && Unnamed in s.entries && "*" in s.entries && "+" in s.entries
    && (forall k :: k in s.entries ==> (s.entries[k].isClipboardRegister <==> k in ClipboardNames))
    && (forall k :: k in s.entries ==> k == Unnamed || k in ClipboardNames || IsNameByPattern(k))
  }

  /** The store at start-up: the unnamed register and the two clipboard registers, all empty. */
  function Initial(): (s: Store)
    ensures Wf(s)
    ensures s.entries.Keys == {Unnamed} + ClipboardNames
    ensures forall k :: k in s.entries ==> s.entries[k].content == Text("") && s.entries[k].mode == CharacterWise
  {
    var clip := Blank.(isClipboardRegister := true);
    var s := Store(map[Unnamed := Blank, "*" := clip, "+" := clip], [Unnamed, "*", "+"]);
    assert Unnamed[0] != "*"[0] && Unnamed[0] != "+"[0] && "*"[0] != "+"[0];
    assert s.order[0] == Unnamed && s.order[1] == "*" && s.order[2] == "+";
    assert !IsNameByPattern(Unnamed) by { assert Unnamed[0] == '"'; }
    s
  }

  /** Whether `name` is a clipboard-backed register; false for a name without an entry. */
  function IsClipboardRegister(s: Store, name: string): (b: bool)
    ensures b ==> name in s.entries
    ensures Wf(s) ==> (b <==> name in ClipboardNames)
  {
    name in s.entries && s.entries[name].isClipboardRegister
  }

  /**
   * A name the store accepts: one it already holds, one of one or more ASCII
   * letters and digits, or one containing a dot.
   */
  function IsValidRegister(s: Store, name: string): (b: bool)
    ensures name == "" ==> (b <==> "" in s.entries)
    ensures IsLetterName(name) ==> b
    ensures name in s.entries ==> b
  {
    name in s.entries || IsAlnumName(name) || ContainsDot(name)
  }

  /** A name a macro may be recorded into: one or more ASCII letters. Every
      such name is accepted by every store. */
  function IsValidRegisterForMacro(name: string): (b: bool)
    ensures b ==> IsAlnumName(name) && !ContainsDot(name)
    ensures b ==> forall s :: IsValidRegister(s, name)
  {
    LetterNameIsAlnumName(name);
    IsLetterName(name)
  }

  /** `t` differs from `s` only at `name`, which it holds, created last if it is new. */
  ghost predicate OnlyTouches(s: Store, t: Store, name: string) {
    && t.entries.Keys == s.entries.Keys + {name}
    && (forall k :: k in s.entries && k != name ==> t.entries[k] == s.entries[k])
    && t.order == (if name in s.entries then s.order else s.order + [name])
  }

  /** Every entry of `t` keeps the clipboard flag it had in `s`; a new entry has it clear. */
  ghost predicate KeepsClipboardFlags(s: Store, t: Store) {
    forall k :: k in t.entries ==>
      t.entries[k].isClipboardRegister == (k in s.entries && s.entries[k].isClipboardRegister)
  }

  /** The names and flags are as in `s` and the unnamed and clipboard registers still exist. */
  lemma WfAfterTouch(s: Store, t: Store, name: string)
    requires Wf(s) && OnlyTouches(s, t, name) && KeepsClipboardFlags(s, t)
    requires name in s.entries || IsNameByPattern(name)
    ensures Wf(t)
  {
    if name !in s.entries {
      assert name !in s.order;
      assert name !in ClipboardNames && name != Unnamed;
      forall i, j | 0 <= i < j < |t.order| ensures t.order[i] != t.order[j] {
        if j == |s.order| {
          assert t.order[i] == s.order[i];
          assert s.order[i] in s.order;
        }
      }
    }
  }

  /**
   * Stores `content` under `name` with mode `mode` (the effective register mode
   * of the command). A clipboard register also receives the content on the
   * system clipboard. A name the store does not accept fails and changes nothing.
   */
  function Put(s: Store, name: string, mode: RegisterMode, content: Content): (r: Result<Written, Error>)
    ensures r.Failure? <==> !IsValidRegister(s, name)
    ensures r.Failure? ==> r.error == InvalidRegister(name)
    ensures r.Success? ==>
      var t := r.value.store;
      && OnlyTouches(s, t, name)
      && KeepsClipboardFlags(s, t)
      && t.entries[name].content == content
      && t.entries[name].mode == mode
      && (r.value.copied.Some? <==> IsClipboardRegister(s, name))
      && (r.value.copied.Some? ==> r.value.copied.value == content)
      && (Wf(s) ==> Wf(t))
  {
    if !IsValidRegister(s, name) then Failure(InvalidRegister(name))
    else
      var clip := IsClipboardRegister(s, name);
      var order := if name in s.entries then s.order else s.order + [name];
      var t := Store(s.entries[name := Entry(content, mode, clip)], order);
      assert Wf(s) ==> Wf(t) by {
        if Wf(s) {
          WfAfterTouch(s, t, name);
        }
      }
      Success(Written(t, if clip then Some(content) else None))
  }

  /**
   * Stores `content` under `name`, which defaults to the unnamed register, with
   * `mode`, which defaults to `FigureItOutFromCurrentMode`. Otherwise as `Put`.
   */
  function PutByKey(s: Store, content: Content, name: string := Unnamed,
                    mode: RegisterMode := FigureItOutFromCurrentMode): (r: Result<Written, Error>)
    ensures r.Failure? <==> !IsValidRegister(s, name)
    ensures r.Failure? ==> r.error == InvalidRegister(name)
    ensures r.Success? ==>
      var t := r.value.store;
      && OnlyTouches(s, t, name)
      && KeepsClipboardFlags(s, t)
      && t.entries[name].content == content
      && t.entries[name].mode == mode
      && (r.value.copied.Some? <==> IsClipboardRegister(s, name))
      && (r.value.copied.Some? ==> r.value.copied.value == content)
      && (Wf(s) ==> Wf(t))
    ensures Wf(s) && name == Unnamed ==> r.Success?
  {
    Put(s, name, StoredMode(mode), content)
  }

  /**
   * Appends `line` to the line list held under `name`; a register holding a
   * string is left as it is. `Register.add` reads the entry without checking that
   * it exists, and a macro has no line list to extend, so a valid name must
   * name an existing entry that is not a macro.
   */
  function Add(s: Store, name: string, line: string): (r: Result<Store, Error>)
    requires IsValidRegister(s, name) ==> name in s.entries && !s.entries[name].content.Macro?
    ensures r.Failure? <==> !IsValidRegister(s, name)
    ensures r.Failure? ==> r.error == InvalidRegister(name)
    ensures r.Success? ==>
      var t := r.value;
      && t.order == s.order
      && t.entries.Keys == s.entries.Keys
      && (forall k :: k in s.entries && k != name ==> t.entries[k] == s.entries[k])
      && t.entries[name].mode == s.entries[name].mode
      && t.entries[name].isClipboardRegister == s.entries[name].isClipboardRegister
      && (s.entries[name].content.Text? ==> t == s)
      && (s.entries[name].content.Lines? ==>
            && t.entries[name].content.Lines?
            && |t.entries[name].content.lines| == |s.entries[name].content.lines| + 1
            && t.entries[name].content.lines[..|s.entries[name].content.lines|] == s.entries[name].content.lines
            && t.entries[name].content.lines[|s.entries[name].content.lines|] == line)
      && (Wf(s) ==> Wf(t))
  {
    if !IsValidRegister(s, name) then Failure(InvalidRegister(name))
    else
      var e := s.entries[name];
      match e.content
      case Lines(lines) =>
        var t := s.(entries := s.entries[name := e.(content := Lines(lines + [line]))]);
        assert (lines + [line])[..|lines|] == lines;
        Success(t)
      case _ => Success(s)
  }

  /**
   * Reads the register `name`. A valid name without an entry first gets the
   * blank character-wise entry; a clipboard register first has its text
   * replaced by `clipboard`, the text the system clipboard holds.
   */
  function GetByKey(s: Store, name: string, clipboard: string): (r: Result<Read, Error>)
    ensures r.Failure? <==> !IsValidRegister(s, name)
    ensures r.Failure? ==> r.error == InvalidRegister(name)
    ensures r.Success? ==>
      var t := r.value.store;
      && OnlyTouches(s, t, name)
      && KeepsClipboardFlags(s, t)
      && r.value.entry == t.entries[name]
      && (name !in s.entries ==> r.value.entry == Blank)
      && (name in s.entries && !IsClipboardRegister(s, name) ==> t == s)
      && (IsClipboardRegister(s, name) ==>
            r.value.entry == s.entries[name].(content := Text(clipboard)))
      && (Wf(s) ==> Wf(t))
  {
    if !IsValidRegister(s, name) then Failure(InvalidRegister(name))
    else if name !in s.entries then
      var t := Store(s.entries[name := Blank], s.order + [name]);
      assert Wf(s) ==> Wf(t) by {
        if Wf(s) {
          WfAfterTouch(s, t, name);
        }
      }
      Success(Read(t, Blank))
    else if s.entries[name].isClipboardRegister then
      var e := s.entries[name].(content := Text(clipboard));
      var t := s.(entries := s.entries[name := e]);
      assert Wf(s) ==> Wf(t) by {
        if Wf(s) {
          WfAfterTouch(s, t, name);
        }
      }
      Success(Read(t, e))
    else
      Success(Read(s, s.entries[name]))
  }

  /** Reads the register the command being typed names; see `GetByKey`. */
  function Get(s: Store, registerName: string, clipboard: string): (r: Result<Read, Error>)
    ensures r.Failure? <==> !IsValidRegister(s, registerName)
    ensures r.Success? ==> Has(r.value.store, registerName)
    ensures r.Success? && !IsClipboardRegister(s, registerName) && registerName in s.entries ==>
      r.value.entry == s.entries[registerName]
  {
    GetByKey(s, registerName, clipboard)
  }

  /** Whether `name` has an entry; such a name is always accepted. */
  function Has(s: Store, name: string): (b: bool)
    ensures b ==> IsValidRegister(s, name)
  {
    name in s.entries
  }

  /**
   * The register names, in JavaScript's key order: names that are array
   * indices ascending by value, then the others in creation order. In a
   * well-formed store it lists exactly the names with entries, each once.
   */
  function GetKeys(s: Store): (keys: seq<string>)
    ensures multiset(keys) == multiset(s.order)
    ensures Wf(s) ==> NoDups(keys) && forall k :: k in keys <==> k in s.entries
  {
    var keys := OwnKeys(s.order);
    assert forall k :: k in keys <==> k in s.order by {
      forall k ensures k in keys <==> k in s.order {
        assert k in keys <==> k in multiset(keys);
      }
    }
    keys
  }
}
