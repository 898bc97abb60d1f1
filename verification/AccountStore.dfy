/** Named accounts in two places: an index of entries, and a keyring (or plaintext) holding the secrets. */
module AccountStore {
  import opened Wrappers

  datatype Credentials = Credentials(apiKey: string, apiSecret: string)

  /** An index entry: references into the keyring, or the plaintext fallback. */
  datatype Entry =
    | InKeyring(exchange: string, apiKeyRef: string, secretRef: string)
    | Plaintext(exchange: string, apiKey: string, apiSecret: string)

  datatype Slot = Slot(service: string, username: string)

  datatype Error =
    AlreadyExists | NotFound | PlaintextFallbackRequired | MissingCredentials | KeyringFailure | MalformedReference

  const SERVICE_PREFIX := "funding-tool"
  const REF_PREFIX := "keyring:"

  // --- references ---

  function Service(name: string): string {
    SERVICE_PREFIX + "/" + name
  }

  function KeyringRef(name: string, kind: string): string {
    REF_PREFIX + Service(name) + ":" + kind
  }

  /** Python's rpartition at a colon: what is before and after the last one; without one, all of it is after. */
  function RPartition(s: string): (string, string) {
    if s == [] then ("", "")
    else if s[|s| - 1] == ':' then (s[..|s| - 1], "")
    else
      var (head, tail) := RPartition(s[..|s| - 1]);
      (head, tail + [s[|s| - 1]])
  }

  /** The slot a reference names; the assertion on its prefix fails for a reference this store did not build. */
  function KeyringParse(reference: string): Result<Slot, Error> {
    if !(REF_PREFIX <= reference) then Err(MalformedReference)
    else
      var (service, username) := RPartition(reference[|REF_PREFIX|..]);
      Ok(Slot(service, username))
  }

  lemma {:induction false} RPartitionJoined(head: string, tail: string)
    requires ':' !in tail
    ensures RPartition(head + ":" + tail) == (head, tail)
  {
    var s := head + ":" + tail;
    if tail == [] {
      assert s[..|s| - 1] == head;
    } else {
      assert s[..|s| - 1] == head + ":" + tail[..|tail| - 1];
      RPartitionJoined(head, tail[..|tail| - 1]);
      assert s[|s| - 1] == tail[|tail| - 1] && tail[|tail| - 1] in tail;
      assert tail == tail[..|tail| - 1] + [tail[|tail| - 1]];
    }
  }

  /** Parsing undoes building a reference, whatever colons the account name holds. */
  lemma ParseUndoesRef(name: string, kind: string)
    requires ':' !in kind
    ensures KeyringParse(KeyringRef(name, kind)) == Ok(Slot(Service(name), kind))
  {
    var body := Service(name) + ":" + kind;
    assert KeyringRef(name, kind) == REF_PREFIX + body;
    assert KeyringRef(name, kind)[|REF_PREFIX|..] == body;
    RPartitionJoined(Service(name), kind);
  }

  lemma ServicesDiffer(a: string, b: string)
    ensures Service(a) == Service(b) ==> a == b
  {
    assert Service(a)[|SERVICE_PREFIX| + 1..] == a;
    assert Service(b)[|SERVICE_PREFIX| + 1..] == b;
  }

  // --- the store as a value ---

  /** The index in insertion order, the default account, and the keyring's slots. */
  datatype State = State(
    names: seq<string>, entries: map<string, Entry>, default: Option<string>, keyring: map<Slot, string>)

  const EMPTY := State([], map[], None, map[])

  /** `available` is the keyring probe's answer, `writes` how many keyring writes go through before one fails. */
  datatype Operation =
    | Add(name: string, exchange: string, credentials: Credentials, allowPlaintext: bool, available: bool, writes: nat)
    | Remove(name: string, keyDeleted: bool, secretDeleted: bool)
    | SetDefault(name: string)

  datatype Step = Step(state: State, error: Option<Error>)

  function Indexed(s: State, name: string, entry: Entry): State {
    s.(names := s.names + [name], entries := s.entries[name := entry],
       default := if s.default.None? then Some(name) else s.default)
  }

  function WithoutFirst(q: seq<string>, x: string): seq<string> {
    if q == [] then []
    else if q[0] == x then q[1..]
    else [q[0]] + WithoutFirst(q[1..], x)
  }

  function Deleted(keyring: map<Slot, string>, slot: Slot, done: bool): map<Slot, string> {
    if done then keyring - {slot} else keyring
  }

  function Added(s: State, op: Operation): Step
    requires op.Add?
  {
    var c, service := op.credentials, Service(op.name);
    if op.name in s.entries then Step(s, Some(AlreadyExists))
    else if op.available then
      var k1 := if op.writes >= 1 then s.keyring[Slot(service, "key") := c.apiKey] else s.keyring;
      var k2 := if op.writes >= 2 then k1[Slot(service, "secret") := c.apiSecret] else k1;
      if op.writes >= 2 then
        Step(Indexed(s.(keyring := k2), op.name,
                     InKeyring(op.exchange, KeyringRef(op.name, "key"), KeyringRef(op.name, "secret"))), None)
      else Step(s.(keyring := k2), Some(KeyringFailure))
    else if op.allowPlaintext then Step(Indexed(s, op.name, Plaintext(op.exchange, c.apiKey, c.apiSecret)), None)
    else Step(s, Some(PlaintextFallbackRequired))
  }

  /** References in an index are those `Add` built. */
  predicate BuiltRefs(entries: map<string, Entry>) {
    forall name :: name in entries && entries[name].InKeyring? ==>
      entries[name].apiKeyRef == KeyringRef(name, "key") && entries[name].secretRef == KeyringRef(name, "secret")
  }

  /** Deleting what a reference names, if there is one. */
  function DeletedAt(keyring: map<Slot, string>, reference: string, done: bool): Result<map<Slot, string>, Error> {
    if reference == "" then Ok(keyring)
    else
      match KeyringParse(reference)
      case Err(e) => Err(e)
      case Ok(slot) => Ok(Deleted(keyring, slot, done))
  }

  function NewDefault(default: Option<string>, removed: string, names: seq<string>): Option<string> {
    if default == Some(removed) then (if names == [] then None else Some(names[0])) else default
  }

  /** The entry goes first; a malformed reference then ends the removal where it stands. */
  function Removed(s: State, op: Operation): Step
    requires op.Remove?
  {
    if op.name !in s.entries then Step(s, Some(NotFound))
    else
      var popped := s.(names := WithoutFirst(s.names, op.name), entries := s.entries - {op.name});
      var done := popped.(default := NewDefault(s.default, op.name, popped.names));
      match s.entries[op.name]
      case Plaintext(_, _, _) => Step(done, None)
      case InKeyring(_, keyRef, secretRef) =>
        match DeletedAt(s.keyring, keyRef, op.keyDeleted)
        case Err(e) => Step(popped, Some(e))
        case Ok(keyring) =>
          match DeletedAt(keyring, secretRef, op.secretDeleted)
          case Err(e) => Step(popped.(keyring := keyring), Some(e))
          case Ok(keyring) => Step(done.(keyring := keyring), None)
  }

  function Apply(s: State, op: Operation): Step {
    match op
    case Add(_, _, _, _, _, _) => Added(s, op)
    case Remove(_, _, _) => Removed(s, op)
    case SetDefault(name) =>
      if name in s.entries then Step(s.(default := Some(name)), None) else Step(s, Some(NotFound))
  }

  function Lookup(keyring: map<Slot, string>, slot: Slot): string {
    if slot in keyring then keyring[slot] else ""
  }

  /** What get_credentials answers while the keyring can be read. */
  function Get(s: State, name: string): Result<Credentials, Error> {
    if name !in s.entries then Err(NotFound)
    else
      match s.entries[name]
      case Plaintext(_, key, secret) => Ok(Credentials(key, secret))
      case InKeyring(_, keyRef, secretRef) =>
        match (KeyringParse(keyRef), KeyringParse(secretRef))
        case (Ok(keySlot), Ok(secretSlot)) =>
          var key, secret := Lookup(s.keyring, keySlot), Lookup(s.keyring, secretSlot);
          if key == "" || secret == "" then Err(MissingCredentials) else Ok(Credentials(key, secret))
        case _ => Err(MalformedReference)
  }

  class Store {
    var names: seq<string>
    var entries: map<string, Entry>
    var default: Option<string>
    var keyring: map<Slot, string>

    function View(): State
      reads this
    {
      State(names, entries, default, keyring)
    }

    constructor ()
      ensures View() == EMPTY
    {
      names, entries, default, keyring := [], map[], None, map[];
    }

    method AddAccount(op: Operation) returns (error: Option<Error>)
      requires op.Add?
      modifies this
      ensures Step(View(), error) == Apply(old(View()), op)
    {
      if op.name in entries {
        return Some(AlreadyExists);
      }
      var entry;
      if op.available {
        if op.writes < 1 {
          return Some(KeyringFailure);
        }
        keyring := keyring[Slot(Service(op.name), "key") := op.credentials.apiKey];
        if op.writes < 2 {
          return Some(KeyringFailure);
        }
        keyring := keyring[Slot(Service(op.name), "secret") := op.credentials.apiSecret];
        entry := InKeyring(op.exchange, KeyringRef(op.name, "key"), KeyringRef(op.name, "secret"));
      } else {
        if !op.allowPlaintext {
          return Some(PlaintextFallbackRequired);
        }
        entry := Plaintext(op.exchange, op.credentials.apiKey, op.credentials.apiSecret);
      }
      names := names + [op.name];
      entries := entries[op.name := entry];
      if default.None? {
        default := Some(op.name);
      }
      return None;
    }

    method DeletePassword(slot: Slot, done: bool)
      modifies this`keyring
      ensures keyring == Deleted(old(keyring), slot, done)
    {
      if done {
        keyring := keyring - {slot};
      }
    }

    method CleanUp(reference: string, done: bool) returns (error: Option<Error>)
      modifies this`keyring
      ensures var r := DeletedAt(old(keyring), reference, done);
              if r.Ok? then error == None && keyring == r.value else error == Some(r.error) && keyring == old(keyring)
    {
      if reference == "" {
        return None;
      }
      var slot := KeyringParse(reference);
      if slot.Err? {
        return Some(slot.error);
      }
      DeletePassword(slot.value, done);
      return None;
    }

    method RemoveAccount(op: Operation) returns (error: Option<Error>)
      requires op.Remove?
      modifies this
      ensures Step(View(), error) == Apply(old(View()), op)
    {
      if op.name !in entries {
        return Some(NotFound);
      }
      var entry := entries[op.name];
      names := WithoutFirst(names, op.name);
      entries := entries - {op.name};
      if entry.InKeyring? {
        error := CleanUp(entry.apiKeyRef, op.keyDeleted);
        if error.Some? {
          return;
        }
        error := CleanUp(entry.secretRef, op.secretDeleted);
        if error.Some? {
          return;
        }
      }
      if default == Some(op.name) {
        default := if names == [] then None else Some(names[0]);
      }
      return None;
    }

    method SetDefaultAccount(op: Operation) returns (error: Option<Error>)
      requires op.SetDefault?
      modifies this`default
      ensures Step(View(), error) == Apply(old(View()), op)
    {
      if op.name !in entries {
        return Some(NotFound);
      }
      default := Some(op.name);
      return None;
    }

    method GetCredentials(name: string) returns (r: Result<Credentials, Error>)
      ensures r == Get(View(), name)
    {
      if name !in entries {
        return Err(NotFound);
      }
      var entry := entries[name];
      if entry.Plaintext? {
        return Ok(Credentials(entry.apiKey, entry.apiSecret));
      }
      var keySlot := KeyringParse(entry.apiKeyRef);
      var secretSlot := KeyringParse(entry.secretRef);
      if keySlot.Err? || secretSlot.Err? {
        return Err(MalformedReference);
      }
      var apiKey := Lookup(keyring, keySlot.value);
      var apiSecret := Lookup(keyring, secretSlot.value);
      if apiKey == "" || apiSecret == "" {
        return Err(MissingCredentials);
      }
      return Ok(Credentials(apiKey, apiSecret));
    }
  }

  // --- the store refines a book of credentials ---

  /** The abstract store: each account with the credentials last added under its name. */
  type Book = map<string, Credentials>

  /** An addition is accepted when the name is free and the secrets find a place. */
  predicate Accepted(b: Book, op: Operation) {
    match op
    case Add(name, _, _, plain, available, writes) => name !in b && if available then writes >= 2 else plain
    case Remove(name, _, _) => name in b
    case SetDefault(name) => name in b
  }

  function Noted(b: Book, op: Operation): Book {
    if !Accepted(b, op) then b
    else
      match op
      case Add(name, _, credentials, _, _, _) => b[name := credentials]
      case Remove(name, _, _) => b - {name}
      case SetDefault(_) => b
  }

  function Run(ops: seq<Operation>): State {
    if ops == [] then EMPTY else Apply(Run(ops[..|ops| - 1]), ops[|ops| - 1]).state
  }

  function BookOf(ops: seq<Operation>): Book {
    if ops == [] then map[] else Noted(BookOf(ops[..|ops| - 1]), ops[|ops| - 1])
  }

  /** The secrets of `name` lie where its entry says. */
  ghost predicate Holds(s: State, name: string, c: Credentials)
    requires name in s.entries
  {
    match s.entries[name]
    case Plaintext(_, key, secret) => c == Credentials(key, secret)
    case InKeyring(_, _, _) =>
      && Slot(Service(name), "key") in s.keyring && s.keyring[Slot(Service(name), "key")] == c.apiKey
      && Slot(Service(name), "secret") in s.keyring && s.keyring[Slot(Service(name), "secret")] == c.apiSecret
  }

  /** The index lists the book's accounts once each, and a default exactly when there are any. */
  ghost predicate IndexMatches(s: State, b: Book) {
    && BuiltRefs(s.entries)
    && s.entries.Keys == b.Keys
    && (forall i, j :: 0 <= i < j < |s.names| ==> s.names[i] != s.names[j])
    && (forall name :: name in s.names <==> name in b)
    && (s.default.None? <==> s.names == [])
    && (s.default.Some? ==> s.default.value in b)
  }

  ghost predicate Refines(s: State, b: Book) {
    IndexMatches(s, b) && forall name :: name in b ==> Holds(s, name, b[name])
  }

  lemma {:induction false} WithoutFirstHas(q: seq<string>, x: string)
    requires forall i, j :: 0 <= i < j < |q| ==> q[i] != q[j]
    ensures forall y :: y in WithoutFirst(q, x) <==> y in q && y != x
    ensures forall i, j :: 0 <= i < j < |WithoutFirst(q, x)| ==> WithoutFirst(q, x)[i] != WithoutFirst(q, x)[j]
  {
    if q != [] {
      WithoutFirstHas(q[1..], x);
      assert q == [q[0]] + q[1..];
      assert forall i :: 0 <= i < |WithoutFirst(q[1..], x)| ==> WithoutFirst(q[1..], x)[i] in WithoutFirst(q[1..], x);
    }
  }

  lemma AddListed(s: State, b: Book, op: Operation)
    requires IndexMatches(s, b) && op.Add?
    ensures IndexMatches(Apply(s, op).state, Noted(b, op)) && (Apply(s, op).error.None? <==> Accepted(b, op))
  {
    assert forall name :: name in s.names + [op.name] <==> name in s.names || name == op.name;
  }

  /** With references that `Add` built, removal deletes the account's own two slots. */
  lemma RemovedIs(s: State, op: Operation)
    requires op.Remove? && BuiltRefs(s.entries) && op.name in s.entries
    ensures var names := WithoutFirst(s.names, op.name);
            var keyring := if s.entries[op.name].Plaintext? then s.keyring
                           else Deleted(Deleted(s.keyring, Slot(Service(op.name), "key"), op.keyDeleted),
                                        Slot(Service(op.name), "secret"), op.secretDeleted);
            Removed(s, op) ==
              Step(State(names, s.entries - {op.name}, NewDefault(s.default, op.name, names), keyring), None)
  {
    ParseUndoesRef(op.name, "key");
    ParseUndoesRef(op.name, "secret");
  }

  lemma RemoveListed(s: State, b: Book, op: Operation)
    requires IndexMatches(s, b) && op.Remove?
    ensures IndexMatches(Apply(s, op).state, Noted(b, op)) && (Apply(s, op).error.None? <==> Accepted(b, op))
  {
    if op.name in s.entries {
      RemovedIs(s, op);
    }
    WithoutFirstHas(s.names, op.name);
    var names := WithoutFirst(s.names, op.name);
    if names != [] {
      assert names[0] in names;
    }
  }

  /** Secrets of one account stay where they are as long as only slots of another account change. */
  lemma OtherSlotsKept(s: State, s': State, name: string, other: string, c: Credentials)
    requires name in s.entries && name in s'.entries && s.entries[name] == s'.entries[name] && Holds(s, name, c) &&
             name != other
    requires forall slot :: slot in s.keyring && slot.service != Service(other) ==>
             slot in s'.keyring && s'.keyring[slot] == s.keyring[slot]
    ensures Holds(s', name, c)
  {
    ServicesDiffer(name, other);
  }

  lemma AddHolds(s: State, b: Book, op: Operation, name: string)
    requires Refines(s, b) && op.Add? && IndexMatches(Added(s, op).state, Noted(b, op)) && name in Noted(b, op)
    ensures Holds(Added(s, op).state, name, Noted(b, op)[name])
  {
    if name in b && name != op.name {
      OtherSlotsKept(s, Added(s, op).state, name, op.name, b[name]);
    }
  }

  lemma DeletesOwnSlots(keyring: map<Slot, string>, service: string, keyDone: bool, secretDone: bool)
    ensures var left := Deleted(Deleted(keyring, Slot(service, "key"), keyDone), Slot(service, "secret"), secretDone);
            forall slot :: slot in keyring && slot.service != service ==> slot in left && left[slot] == keyring[slot]
  {
  }

  lemma RemoveHolds(s: State, b: Book, op: Operation, name: string)
    requires Refines(s, b) && op.Remove? && IndexMatches(Removed(s, op).state, Noted(b, op)) && name in Noted(b, op)
    ensures Holds(Removed(s, op).state, name, Noted(b, op)[name])
  {
    if op.name in b {
      RemovedIs(s, op);
      DeletesOwnSlots(s.keyring, Service(op.name), op.keyDeleted, op.secretDeleted);
      OtherSlotsKept(s, Removed(s, op).state, name, op.name, b[name]);
    }
  }

  lemma StepRefines(s: State, b: Book, op: Operation)
    requires Refines(s, b)
    ensures Refines(Apply(s, op).state, Noted(b, op)) && (Apply(s, op).error.None? <==> Accepted(b, op))
  {
    match op {
      case Add(_, _, _, _, _, _) =>
        AddListed(s, b, op);
        forall name | name in Noted(b, op) ensures Holds(Added(s, op).state, name, Noted(b, op)[name]) {
          AddHolds(s, b, op, name);
        }
      case Remove(_, _, _) =>
        RemoveListed(s, b, op);
        forall name | name in Noted(b, op) ensures Holds(Removed(s, op).state, name, Noted(b, op)[name]) {
          RemoveHolds(s, b, op, name);
        }
      case SetDefault(_) =>
    }
  }

  /** Every run, whatever the keyring does at each step, keeps the store a refinement of the book. */
  lemma {:induction false} RunRefines(ops: seq<Operation>)
    ensures Refines(Run(ops), BookOf(ops))
  {
    if ops != [] {
      var front, op := ops[..|ops| - 1], ops[|ops| - 1];
      RunRefines(front);
      StepRefines(Run(front), BookOf(front), op);
    }
  }

  /**
   * After any run get_credentials answers with the credentials last added under the name; the one exception is an
   * account kept in the keyring with an empty key or secret, which counts as missing.
   */
  lemma GetsLastAdded(ops: seq<Operation>, name: string)
    ensures Run(ops).entries.Keys == BookOf(ops).Keys
    ensures var s, b := Run(ops), BookOf(ops);
            Get(s, name) ==
              if name !in b then Err(NotFound)
              else if s.entries[name].InKeyring? && (b[name].apiKey == "" || b[name].apiSecret == "")
              then Err(MissingCredentials)
              else Ok(b[name])
  {
    RunRefines(ops);
    ParseUndoesRef(name, "key");
    ParseUndoesRef(name, "secret");
  }

  /** There is a default exactly when there are accounts, and it names one of them. */
  lemma DefaultNamesAnAccount(ops: seq<Operation>)
    ensures var s, b := Run(ops), BookOf(ops);
            (s.default.None? <==> b == map[]) && (s.default.Some? ==> s.default.value in b)
  {
    RunRefines(ops);
    var s, b := Run(ops), BookOf(ops);
    if s.names != [] {
      assert s.names[0] in b;
    } else {
      assert b.Keys == {};
    }
  }

  lemma {:induction false} DefaultStays(s: State, more: seq<Operation>, name: string)
    requires s.default == Some(name)
    requires forall i :: 0 <= i < |more| ==> more[i].Add? || (more[i].Remove? && more[i].name != name)
    ensures Resumed(s, more).default == Some(name)
  {
    if more != [] {
      DefaultStays(s, more[..|more| - 1], name);
    }
  }

  function Resumed(s: State, ops: seq<Operation>): State {
    if ops == [] then s else Apply(Resumed(s, ops[..|ops| - 1]), ops[|ops| - 1]).state
  }

  /** A chosen default stays the default until it is removed or another one is chosen. */
  lemma ChosenDefaultStays(ops: seq<Operation>, more: seq<Operation>, name: string)
    requires name in BookOf(ops)
    requires forall i :: 0 <= i < |more| ==> more[i].Add? || (more[i].Remove? && more[i].name != name)
    ensures Apply(Run(ops), SetDefault(name)).error.None?
    ensures Resumed(Apply(Run(ops), SetDefault(name)).state, more).default == Some(name)
  {
    RunRefines(ops);
    DefaultStays(Apply(Run(ops), SetDefault(name)).state, more, name);
  }

  /** When the account was last added: the position of its latest accepted addition. */
  function AddedAt(ops: seq<Operation>, name: string): nat {
    if ops == [] then 0
    else
      var front, op := ops[..|ops| - 1], ops[|ops| - 1];
      if op.Add? && op.name == name && Accepted(BookOf(front), op) then |front| else AddedAt(front, name)
  }

  lemma {:induction false} AddedBefore(ops: seq<Operation>, name: string)
    requires name in BookOf(ops)
    ensures AddedAt(ops, name) < |ops|
  {
    var front, op := ops[..|ops| - 1], ops[|ops| - 1];
    if name in BookOf(front) {
      AddedBefore(front, name);
    }
  }

  ghost predicate ByAge(ops: seq<Operation>, names: seq<string>) {
    forall i, j :: 0 <= i < j < |names| ==> AddedAt(ops, names[i]) < AddedAt(ops, names[j])
  }

  lemma {:induction false} WithoutFirstKeepsAge(ops: seq<Operation>, names: seq<string>, x: string)
    requires ByAge(ops, names)
    ensures ByAge(ops, WithoutFirst(names, x))
    ensures forall y :: y in WithoutFirst(names, x) ==> y in names
  {
    if names != [] {
      WithoutFirstKeepsAge(ops, names[1..], x);
      assert names == [names[0]] + names[1..];
      var rest := WithoutFirst(names[1..], x);
      forall i | 0 <= i < |rest| ensures AddedAt(ops, names[0]) < AddedAt(ops, rest[i]) {
        assert rest[i] in names[1..];
      }
    }
  }

  /** The ages of accounts already held do not change. */
  lemma AgesKept(ops: seq<Operation>, names: seq<string>)
    requires ops != [] && ByAge(ops[..|ops| - 1], names)
    requires forall name :: name in names ==> name in BookOf(ops[..|ops| - 1])
    ensures ByAge(ops, names) && forall i :: 0 <= i < |names| ==> AddedAt(ops, names[i]) < |ops| - 1
  {
    var front := ops[..|ops| - 1];
    forall i | 0 <= i < |names| ensures AddedAt(ops, names[i]) == AddedAt(front, names[i]) < |front| {
      assert names[i] in names;
      AddedBefore(front, names[i]);
    }
  }

  lemma NewestLast(ops: seq<Operation>, names: seq<string>, name: string)
    requires ByAge(ops, names) && forall i :: 0 <= i < |names| ==> AddedAt(ops, names[i]) < AddedAt(ops, name)
    ensures ByAge(ops, names + [name])
  {
  }

  /** The index lists the accounts from the longest held to the latest. */
  lemma {:induction false} NamesByAge(ops: seq<Operation>)
    ensures ByAge(ops, Run(ops).names)
  {
    if ops != [] {
      var front, op := ops[..|ops| - 1], ops[|ops| - 1];
      var names := Run(front).names;
      NamesByAge(front);
      RunRefines(front);
      AgesKept(ops, names);
      NamesAfter(Run(front), BookOf(front), op);
      NamesNext(ops, names, BookOf(front), op);
    }
  }

  lemma NamesAfter(s: State, b: Book, op: Operation)
    requires s.entries.Keys == b.Keys
    ensures Apply(s, op).state.names ==
            if !Accepted(b, op) || op.SetDefault? then s.names
            else if op.Add? then s.names + [op.name]
            else WithoutFirst(s.names, op.name)
  {
    assert op.name in s.entries.Keys <==> op.name in b.Keys;
  }

  lemma NamesNext(ops: seq<Operation>, names: seq<string>, b: Book, op: Operation)
    requires ops != [] && op == ops[|ops| - 1] && b == BookOf(ops[..|ops| - 1])
    requires ByAge(ops, names) && forall i :: 0 <= i < |names| ==> AddedAt(ops, names[i]) < |ops| - 1
    ensures Accepted(b, op) && op.Add? ==> ByAge(ops, names + [op.name])
    ensures ByAge(ops, WithoutFirst(names, op.name))
  {
    WithoutFirstKeepsAge(ops, names, op.name);
    if op.Add? && Accepted(b, op) {
      NewestLast(ops, names, op.name);
    }
  }

  lemma OldestFirst(ops: seq<Operation>, names: seq<string>, other: string)
    requires ByAge(ops, names) && other in names
    ensures AddedAt(ops, names[0]) <= AddedAt(ops, other)
  {
    var i :| 0 <= i < |names| && names[i] == other;
  }

  /** Removing the default hands the role to the account held longest, if one is left. */
  lemma FallbackIsOldest(ops: seq<Operation>, op: Operation, other: string)
    requires op.Remove? && Run(ops).default == Some(op.name)
    ensures var s', left := Apply(Run(ops), op).state, Noted(BookOf(ops), op);
            && (s'.default.None? <==> left == map[])
            && (s'.default.Some? ==> s'.default.value in left)
            && (other in left ==> s'.default.Some? && AddedAt(ops, s'.default.value) <= AddedAt(ops, other))
  {
    RunRefines(ops);
    NamesByAge(ops);
    FallbackFrom(ops, Run(ops), BookOf(ops), op, other);
  }

  lemma FallbackFrom(ops: seq<Operation>, s: State, b: Book, op: Operation, other: string)
    requires op.Remove? && s.default == Some(op.name) && IndexMatches(s, b) && ByAge(ops, s.names)
    ensures var s', left := Removed(s, op).state, Noted(b, op);
            && (s'.default.None? <==> left == map[])
            && (s'.default.Some? ==> s'.default.value in left)
            && (other in left ==> s'.default.Some? && AddedAt(ops, s'.default.value) <= AddedAt(ops, other))
  {
    RemovedIs(s, op);
    RemoveListed(s, b, op);
    WithoutFirstKeepsAge(ops, s.names, op.name);
    var s', left := Removed(s, op).state, Noted(b, op);
    if other in left {
      OldestFirst(ops, s'.names, other);
    }
    if s'.names == [] {
      assert left.Keys == {};
    } else {
      assert s'.names[0] in left;
    }
  }

  /** A refused operation leaves the index and the default as they were, and every account's credentials. */
  lemma RefusedChangesNothing(ops: seq<Operation>, op: Operation, name: string)
    requires Apply(Run(ops), op).error.Some?
    ensures var s, s' := Run(ops), Apply(Run(ops), op).state;
            && s'.names == s.names && s'.entries == s.entries && s'.default == s.default
            && Get(s', name) == Get(s, name)
  {
    RunRefines(ops);
    StepRefines(Run(ops), BookOf(ops), op);
    assert (ops + [op])[..|ops|] == ops;
    GetsLastAdded(ops, name);
    GetsLastAdded(ops + [op], name);
  }

  // --- where the secrets lie ---

  /**
   * The entry that the latest accepted addition of an account calls for; with a keyring it is built from names alone.
   */
  function EntryFor(op: Operation): Entry
    requires op.Add?
  {
    if op.available
    then InKeyring(op.exchange, "keyring:funding-tool/" + op.name + ":" + "key",
      "keyring:funding-tool/" + op.name + ":" + "secret")
    else Plaintext(op.exchange, op.credentials.apiKey, op.credentials.apiSecret)
  }

  lemma RefText(name: string, kind: string)
    ensures KeyringRef(name, kind) == "keyring:funding-tool/" + name + ":" + kind
  {
    assert SERVICE_PREFIX + "/" + name == "funding-tool/" + name;
    assert REF_PREFIX + ("funding-tool/" + name) == "keyring:funding-tool/" + name;
  }

  lemma AddedEntry(s: State, op: Operation)
    requires op.Add? && Added(s, op).error.None?
    ensures op.name in Added(s, op).state.entries && Added(s, op).state.entries[op.name] == EntryFor(op)
    ensures !op.available ==> op.allowPlaintext
  {
    RefText(op.name, "key");
    RefText(op.name, "secret");
  }

  lemma OtherEntryKept(s: State, op: Operation, name: string)
    requires BuiltRefs(s.entries) && name in s.entries && name in Apply(s, op).state.entries
    requires !(op.Add? && op.name == name && Apply(s, op).error.None?)
    ensures Apply(s, op).state.entries[name] == s.entries[name]
  {
    if op.Remove? && op.name in s.entries {
      RemovedIs(s, op);
    }
  }

  /** Every entry is the one that the latest accepted addition of its account calls for. */
  lemma {:induction false} EntryIs(ops: seq<Operation>, name: string)
    requires name in BookOf(ops)
    ensures AddedAt(ops, name) < |ops|
    ensures var op := ops[AddedAt(ops, name)];
            && op.Add? && op.name == name && op.credentials == BookOf(ops)[name]
            && (!op.available ==> op.allowPlaintext)
            && name in Run(ops).entries && Run(ops).entries[name] == EntryFor(op)
  {
    var front, op := ops[..|ops| - 1], ops[|ops| - 1];
    RunRefines(front);
    RunRefines(ops);
    StepRefines(Run(front), BookOf(front), op);
    if op.Add? && op.name == name && Accepted(BookOf(front), op) {
      AddedEntry(Run(front), op);
    } else {
      EntryIs(front, name);
      OtherEntryKept(Run(front), op, name);
    }
  }

  /**
   * After any run an account's secrets are in the index if and only if its latest accepted addition found no keyring,
     and
   * then it had consent; otherwise the index holds references made of the name alone, and both keyring slots hold the
   * secrets.
   */
  lemma WhereSecretsLie(ops: seq<Operation>, name: string)
    requires name in BookOf(ops)
    ensures AddedAt(ops, name) < |ops| && ops[AddedAt(ops, name)].Add? && name in Run(ops).entries
    ensures var s, op, c := Run(ops), ops[AddedAt(ops, name)], BookOf(ops)[name];
            && (s.entries[name].Plaintext? <==> !op.available)
            && (s.entries[name].Plaintext? ==>
                 op.allowPlaintext && s.entries[name] == Plaintext(op.exchange, c.apiKey, c.apiSecret))
            && (op.available ==>
                  && s.entries[name] == InKeyring(op.exchange, "keyring:funding-tool/" + name + ":" + "key",
                                                  "keyring:funding-tool/" + name + ":" + "secret")
                  && var key, secret := Slot("funding-tool/" + name, "key"), Slot("funding-tool/" + name, "secret");
                     && key in s.keyring && s.keyring[key] == c.apiKey
                     && secret in s.keyring && s.keyring[secret] == c.apiSecret)
  {
    EntryIs(ops, name);
    RunRefines(ops);
    assert Holds(Run(ops), name, BookOf(ops)[name]);
    assert Service(name) == "funding-tool/" + name;
  }

  /** A removal whose deletions go through leaves neither secret in the keyring, and touches no other slot. */
  lemma RemovalCleansUp(ops: seq<Operation>, op: Operation, slot: Slot)
    requires op.Remove? && op.name in BookOf(ops) && op.keyDeleted && op.secretDeleted
    ensures op.name in Run(ops).entries && op.name !in Apply(Run(ops), op).state.entries
    ensures var s, s' := Run(ops), Apply(Run(ops), op).state;
            var own := s.entries[op.name].InKeyring? && slot.service == "funding-tool/" + op.name &&
                       (slot.username == "key" || slot.username == "secret");
            && (slot in s'.keyring <==> slot in s.keyring && !own)
            && (slot in s'.keyring ==> s'.keyring[slot] == s.keyring[slot])
  {
    RunRefines(ops);
    RemovedIs(Run(ops), op);
    assert Service(op.name) == "funding-tool/" + op.name;
  }

  /** Each refusal gives its own reason, and which one is decided by the book and the operation. */
  lemma RefusalIs(ops: seq<Operation>, op: Operation)
    ensures var b := BookOf(ops);
            Apply(Run(ops), op).error ==
              match op
              case Add(name, _, _, plain, available, writes) =>
                if name in b then Some(AlreadyExists)
                else if available && writes < 2 then Some(KeyringFailure)
                else if !available && !plain then Some(PlaintextFallbackRequired)
                else None
              case Remove(name, _, _) => if name in b then None else Some(NotFound)
              case SetDefault(name) => if name in b then None else Some(NotFound)
  {
    RunRefines(ops);
    assert op.name in Run(ops).entries.Keys <==> op.name in BookOf(ops).Keys;
    if op.Remove? && op.name in BookOf(ops) {
      RemovedIs(Run(ops), op);
    }
  }
}
