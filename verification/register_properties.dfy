/** Properties of the register store that relate several operations. */
module RegisterProperties {
  import opened Wrappers
  import opened RegisterNames
  import opened KeyOrder
  import opened Registers

  /** Writing a register that is not clipboard-backed and reading it back gives
      the content and mode written, with the clipboard flag clear, and the read
      changes nothing. */
  lemma PutThenGetByKey(s: Store, name: string, mode: RegisterMode, content: Content, clipboard: string)
    requires IsValidRegister(s, name) && !IsClipboardRegister(s, name)
    ensures Put(s, name, mode, content).Success?
    ensures var t := Put(s, name, mode, content).value.store;
      GetByKey(t, name, clipboard) == Success(Read(t, Entry(content, mode, false)))
  {
  }

  /** The same round trip through `putByKey` with an explicit name and mode. */
  lemma PutByKeyThenGetByKey(s: Store, name: string, mode: RegisterMode, content: Content, clipboard: string)
    requires IsValidRegister(s, name) && !IsClipboardRegister(s, name)
    ensures PutByKey(s, content, name, mode).Success?
    ensures var t := PutByKey(s, content, name, mode).value.store;
      GetByKey(t, name, clipboard) == Success(Read(t, Entry(content, mode, false)))
  {
  }

  /** A clipboard register mirrors a write to the system clipboard, and a read
      returns what the clipboard then holds, with the mode written. */
  lemma ClipboardWriteThenRead(s: Store, name: string, mode: RegisterMode, content: Content, clipboard: string)
    requires Wf(s) && name in ClipboardNames
    ensures Put(s, name, mode, content).Success?
    ensures Put(s, name, mode, content).value.copied == Some(content)
    ensures var t := Put(s, name, mode, content).value.store;
      && GetByKey(t, name, clipboard).Success?
      && GetByKey(t, name, clipboard).value.entry == Entry(Text(clipboard), mode, true)
  {
  }

  /** Called without a name and mode, `putByKey` writes the unnamed register
      with `FigureItOutFromCurrentMode`, and nothing goes to the clipboard. */
  lemma PutByKeyDefaults(s: Store, content: Content)
    requires Wf(s)
    ensures PutByKey(s, content).Success?
    ensures PutByKey(s, content).value.store.entries[Unnamed] == Entry(content, FigureItOutFromCurrentMode, false)
    ensures PutByKey(s, content).value.copied == None
  {
  }

  /** Every operation rejects a name the store does not accept, with the same error. */
  lemma InvalidNameRejected(s: Store, name: string, mode: RegisterMode, content: Content, line: string, clipboard: string)
    requires !IsValidRegister(s, name)
    ensures Put(s, name, mode, content) == Failure(InvalidRegister(name))
    ensures PutByKey(s, content, name, mode) == Failure(InvalidRegister(name))
    ensures Add(s, name, line) == Failure(InvalidRegister(name))
    ensures GetByKey(s, name, clipboard) == Failure(InvalidRegister(name))
    ensures Get(s, name, clipboard) == Failure(InvalidRegister(name))
  {
  }

  /** In a well-formed store the accepted names do not depend on what has been
      written: they are the three initial names and the names matching a pattern. */
  lemma {:induction false} ValidNames(s: Store, name: string)
    requires Wf(s)
    ensures IsValidRegister(s, name) <==> name == Unnamed || name in ClipboardNames || IsNameByPattern(name)
  {
    if name in s.entries {
      assert name == Unnamed || name in ClipboardNames || IsNameByPattern(name);
    }
  }

  /** So the empty name is never accepted by a well-formed store. */
  lemma EmptyNameInvalid(s: Store)
    requires Wf(s)
    ensures !IsValidRegister(s, "")
  {
    ValidNames(s, "");
    assert !ContainsDot("");
    assert Unnamed != "" && "*" != "" && "+" != "";
  }

  /** The one-character names a well-formed store accepts: ASCII letters and
      digits, the dot, and the unnamed and clipboard registers. */
  lemma SingleCharacterNames(s: Store, c: char)
    requires Wf(s)
    ensures IsValidRegister(s, [c]) <==> IsAsciiAlnum(c) || c == '.' || c == '"' || c == '*' || c == '+'
  {
    ValidNames(s, [c]);
    SingleCharAlnum(c);
    assert [c] == Unnamed <==> c == '"' by { assert Unnamed == ['"']; }
    assert [c] == "*" <==> c == '*' by { assert "*" == ['*']; }
    assert [c] == "+" <==> c == '+' by { assert "+" == ['+']; }
  }

  /** A name stays accepted after any successful write or read. */
  lemma ValidityPersists(s: Store, t: Store, touched: string, name: string)
    requires OnlyTouches(s, t, touched) || (t.entries.Keys == s.entries.Keys)
    requires IsValidRegister(s, name)
    ensures IsValidRegister(t, name)
  {
  }

  /** Reading a register twice with the clipboard unchanged: the second read
      returns the same entry and changes nothing. */
  lemma GetByKeyIdempotent(s: Store, name: string, clipboard: string)
    requires IsValidRegister(s, name)
    ensures var first := GetByKey(s, name, clipboard);
      && first.Success?
      && GetByKey(first.value.store, name, clipboard) == first
  {
    var t := GetByKey(s, name, clipboard).value.store;
    if IsClipboardRegister(t, name) {
      assert t.entries[name := t.entries[name].(content := Text(clipboard))] == t.entries;
    }
  }

  /** The last write wins: writing twice is writing the second value once. */
  lemma PutOverwrites(s: Store, name: string, m1: RegisterMode, c1: Content, m2: RegisterMode, c2: Content)
    requires IsValidRegister(s, name)
    ensures Put(s, name, m1, c1).Success?
    ensures Put(Put(s, name, m1, c1).value.store, name, m2, c2).value.store
         == Put(s, name, m2, c2).value.store
  {
  }

  /** Adding a line to a register holding lines: the next read returns the
      lines with the new one at the end, and mode and flag as before. */
  lemma AddThenGetByKey(s: Store, name: string, line: string, clipboard: string)
    requires name in s.entries && s.entries[name].content.Lines? && !s.entries[name].isClipboardRegister
    ensures Add(s, name, line).Success?
    ensures var t := Add(s, name, line).value;
      GetByKey(t, name, clipboard).Success? &&
      GetByKey(t, name, clipboard).value.entry
        == s.entries[name].(content := Lines(s.entries[name].content.lines + [line]))
  {
  }

  /** At start-up the store lists the unnamed register, then `*`, then `+`. */
  lemma InitialKeys()
    ensures GetKeys(Initial()) == [Unnamed, "*", "+"]
  {
    var created := [Unnamed, "*", "+"];
    assert Initial().order == created;
    forall i | 0 <= i < |created| ensures !IsArrayIndex(created[i]) {
      assert !IsAsciiDigit(created[i][0]);
    }
    OwnKeysWithoutIndices(created);
  }

  /** Writing a new register whose name is not an array index lists it last. */
  lemma NewNameListedLast(s: Store, name: string, mode: RegisterMode, content: Content)
    requires IsValidRegister(s, name) && name !in s.entries && !IsArrayIndex(name)
    ensures Put(s, name, mode, content).Success?
    ensures GetKeys(Put(s, name, mode, content).value.store) == GetKeys(s) + [name]
  {
    OwnKeysNewNamedKey(s.order, name);
  }

  /** Reading a valid name without an entry creates the blank entry: afterwards
      the store has it and lists it. */
  lemma ReadCreatesBlank(s: Store, name: string, clipboard: string)
    requires Wf(s) && IsValidRegister(s, name) && name !in s.entries
    ensures GetByKey(s, name, clipboard).Success?
    ensures var t := GetByKey(s, name, clipboard).value.store;
      && GetByKey(s, name, clipboard).value.entry == Entry(Text(""), CharacterWise, false)
      && Has(t, name) && !IsClipboardRegister(t, name)
      && name in GetKeys(t)
  {
  }
}
