/** Hostname and SSH username: edits, commit and rollback by several CLI sessions. */
module Config {
  import opened CStrings
  import opened KeyValueStores

  /** The text of one command argument: a C string of any length. */
  type Text = t: Bytes | NUL !in t witness []

  const HOSTNAME_SIZE: nat := 33
  const USERNAME_SIZE: nat := 32
  const DEFAULT_HOSTNAME: Text := "switch"
  const DEFAULT_USERNAME: Text := "admin"

  // ---------------------------------------------------------------- what it is meant to do

  /** Texts without buffers: what every session shows, the username, and what is saved. */
  datatype Settings = Settings(hostnames: seq<Bytes>, username: Bytes, savedHostname: Bytes, savedUsername: Bytes)

  datatype Action =
    | EditHostname(session: nat, text: Bytes)
    | EditUsername(text: Bytes)
    | Commit(session: nat, hostnameStored: bool, usernameStored: bool)
    | Rollback(session: nat)
    | OpenSession(session: nat)
    | RestartServer
    | RemoveObject(key: ObjectId)

  function Apply(s: Settings, a: Action): (t: Settings)
    ensures |t.hostnames| == |s.hostnames|
  {
    match a
    case EditHostname(i, text) =>
      if i < |s.hostnames| then s.(hostnames := s.hostnames[i := Prefix(text, HOSTNAME_SIZE - 1)]) else s
    case EditUsername(text) => s.(username := Prefix(text, USERNAME_SIZE - 1))
    case Commit(i, hostnameStored, usernameStored) =>
      if i < |s.hostnames|
      then s.(savedHostname := if hostnameStored then s.hostnames[i] else s.savedHostname,
              savedUsername := if usernameStored then s.username else s.savedUsername)
      else s
    case Rollback(i) =>
      if i < |s.hostnames|
      then s.(hostnames := s.hostnames[i := s.savedHostname], username := s.savedUsername)
      else s
    case OpenSession(i) =>
      if i < |s.hostnames| then s.(hostnames := s.hostnames[i := s.savedHostname]) else s
    case RestartServer => s.(username := s.savedUsername)
    case RemoveObject(key) =>
      if key == Hostname then s.(savedHostname := DEFAULT_HOSTNAME)
      else if key == SshUsername then s.(savedUsername := DEFAULT_USERNAME)
      else s
  }

  function ApplyAll(s: Settings, actions: seq<Action>): (t: Settings)
    ensures |t.hostnames| == |s.hostnames|
  {
    if actions == [] then s
    else Apply(ApplyAll(s, actions[..|actions| - 1]), actions[|actions| - 1])
  }

  lemma RollbackIsBothLoads(s: Settings, i: nat)
    requires i < |s.hostnames|
    ensures Apply(s, Rollback(i)) == Apply(Apply(s, OpenSession(i)), RestartServer)
  {
  }

  predicate SavesHostname(a: Action, sessions: nat) {
    (a.Commit? && a.session < sessions && a.hostnameStored) || a == RemoveObject(Hostname)
  }

  predicate SavesUsername(a: Action, sessions: nat) {
    (a.Commit? && a.session < sessions && a.usernameStored) || a == RemoveObject(SshUsername)
  }

  /** What one action does to the saved values. */
  lemma SavedBy(s: Settings, a: Action)
    ensures Apply(s, a).savedHostname
            == if !SavesHostname(a, |s.hostnames|) then s.savedHostname
               else if a.Commit? then s.hostnames[a.session] else DEFAULT_HOSTNAME
    ensures Apply(s, a).savedUsername
            == if !SavesUsername(a, |s.hostnames|) then s.savedUsername
               else if a.Commit? then s.username else DEFAULT_USERNAME
  {
  }

  /** The last of these actions that saves a hostname is the k-th, and what it saved is what a
    rollback would load: the hostname its session showed at that moment, or the default after a
    removal. If k is 0, none of them saves one and the one saved at the start is still there. */
  ghost predicate HostnameSavedAt(s: Settings, actions: seq<Action>, k: nat) {
    && k <= |actions|
    && (forall m :: k <= m < |actions| ==> !SavesHostname(actions[m], |s.hostnames|))
    && (k > 0 ==> SavesHostname(actions[k - 1], |s.hostnames|))
    && ApplyAll(s, actions).savedHostname
       == if k == 0 then s.savedHostname
          else if actions[k - 1].Commit? then ApplyAll(s, actions[..k - 1]).hostnames[actions[k - 1].session]
          else DEFAULT_HOSTNAME
  }

  lemma HostnameSavedByLast(s: Settings, actions: seq<Action>)
    requires actions != [] && SavesHostname(actions[|actions| - 1], |s.hostnames|)
    ensures HostnameSavedAt(s, actions, |actions|)
  {
    SavedBy(ApplyAll(s, actions[..|actions| - 1]), actions[|actions| - 1]);
  }

  lemma HostnameSavedBefore(s: Settings, actions: seq<Action>, k: nat)
    requires actions != [] && !SavesHostname(actions[|actions| - 1], |s.hostnames|)
    requires HostnameSavedAt(s, actions[..|actions| - 1], k)
    ensures HostnameSavedAt(s, actions, k)
  {
    assert forall m :: k <= m < |actions| - 1 ==> actions[..|actions| - 1][m] == actions[m];
    SavedBy(ApplyAll(s, actions[..|actions| - 1]), actions[|actions| - 1]);
    assert k > 0 ==> actions[..|actions| - 1][..k - 1] == actions[..k - 1];
  }

  /** Over any run of any sessions, what is saved is the last hostname that was saved. */
  lemma {:induction false} HostnameIsLastSaved(s: Settings, actions: seq<Action>) returns (k: nat)
    ensures HostnameSavedAt(s, actions, k)
  {
    if actions == [] {
      k := 0;
    } else if SavesHostname(actions[|actions| - 1], |s.hostnames|) {
      k := |actions|;
      HostnameSavedByLast(s, actions);
    } else {
      k := HostnameIsLastSaved(s, actions[..|actions| - 1]);
      HostnameSavedBefore(s, actions, k);
    }
  }

  /** The same for the username, which all sessions share. */
  ghost predicate UsernameSavedAt(s: Settings, actions: seq<Action>, k: nat) {
    && k <= |actions|
    && (forall m :: k <= m < |actions| ==> !SavesUsername(actions[m], |s.hostnames|))
    && (k > 0 ==> SavesUsername(actions[k - 1], |s.hostnames|))
    && ApplyAll(s, actions).savedUsername
       == if k == 0 then s.savedUsername
          else if actions[k - 1].Commit? then ApplyAll(s, actions[..k - 1]).username
          else DEFAULT_USERNAME
  }

  lemma UsernameSavedByLast(s: Settings, actions: seq<Action>)
    requires actions != [] && SavesUsername(actions[|actions| - 1], |s.hostnames|)
    ensures UsernameSavedAt(s, actions, |actions|)
  {
    SavedBy(ApplyAll(s, actions[..|actions| - 1]), actions[|actions| - 1]);
  }

  lemma UsernameSavedBefore(s: Settings, actions: seq<Action>, k: nat)
    requires actions != [] && !SavesUsername(actions[|actions| - 1], |s.hostnames|)
    requires UsernameSavedAt(s, actions[..|actions| - 1], k)
    ensures UsernameSavedAt(s, actions, k)
  {
    assert forall m :: k <= m < |actions| - 1 ==> actions[..|actions| - 1][m] == actions[m];
    SavedBy(ApplyAll(s, actions[..|actions| - 1]), actions[|actions| - 1]);
    assert k > 0 ==> actions[..|actions| - 1][..k - 1] == actions[..k - 1];
  }

  lemma {:induction false} UsernameIsLastSaved(s: Settings, actions: seq<Action>) returns (k: nat)
    ensures UsernameSavedAt(s, actions, k)
  {
    if actions == [] {
      k := 0;
    } else if SavesUsername(actions[|actions| - 1], |s.hostnames|) {
      k := |actions|;
      UsernameSavedByLast(s, actions);
    } else {
      k := UsernameIsLastSaved(s, actions[..|actions| - 1]);
      UsernameSavedBefore(s, actions, k);
    }
  }

  /** After any run, a successful commit by session i, and any further actions that save nothing, a
    rollback in any session j shows what i had committed. */
  lemma RollbackRestoresCommit(s: Settings, before: seq<Action>, i: nat, between: seq<Action>, j: nat)
    requires i < |s.hostnames| && j < |s.hostnames|
    requires forall m :: 0 <= m < |between| ==>
               !SavesHostname(between[m], |s.hostnames|) && !SavesUsername(between[m], |s.hostnames|)
    ensures var shown := ApplyAll(s, before);
            var later := Apply(ApplyAll(Apply(shown, Commit(i, true, true)), between), Rollback(j));
            later.hostnames[j] == shown.hostnames[i] && later.username == shown.username
  {
    var committed := Apply(ApplyAll(s, before), Commit(i, true, true));
    var h := HostnameIsLastSaved(committed, between);
    var u := UsernameIsLastSaved(committed, between);
  }

  predicate SetsUsername(a: Action, sessions: nat) {
    a.EditUsername? || a.RestartServer? || (a.Rollback? && a.session < sessions)
  }

  predicate SetsHostname(a: Action, session: nat) {
    (a.EditHostname? || a.Rollback? || a.OpenSession?) && a.session == session
  }

  /** After an edit of the username, whatever else is done that does not set it, it is that text, cut
    to 31 bytes. */
  lemma {:induction false} UsernameIsLastEdit(s: Settings, text: Bytes, later: seq<Action>)
    requires forall m :: 0 <= m < |later| ==> !SetsUsername(later[m], |s.hostnames|)
    ensures ApplyAll(Apply(s, EditUsername(text)), later).username == if |text| <= 31 then text else text[..31]
  {
    if later == [] {
    } else {
      UsernameIsLastEdit(s, text, later[..|later| - 1]);
    }
  }

  /** The same for the hostname of one session, cut to 32 bytes; edits in other sessions do not
    touch it. */
  lemma {:induction false} HostnameIsLastEdit(s: Settings, i: nat, text: Bytes, later: seq<Action>)
    requires i < |s.hostnames| && forall m :: 0 <= m < |later| ==> !SetsHostname(later[m], i)
    ensures ApplyAll(Apply(s, EditHostname(i, text)), later).hostnames[i] == if |text| <= 32 then text else text[..32]
  {
    if later == [] {
    } else {
      HostnameIsLastEdit(s, i, text, later[..|later| - 1]);
    }
  }

  // ---------------------------------------------------------------- how the firmware does it

  /** What LoadHostname and LoadUsername make of the store. */
  function Loaded(objects: map<ObjectId, Bytes>, key: ObjectId, default: Bytes, cap: nat): Bytes {
    CStr(Prefix(LookupOr(objects, key, default), cap))
  }

  /** Saving a text that fits the cap and loading it again is the identity. */
  lemma StoredTextLoads(objects: map<ObjectId, Bytes>, key: ObjectId, default: Bytes, cap: nat, text: Bytes)
    requires LookupOr(objects, key, default) == text
    requires |text| <= cap && NUL !in text
    ensures Loaded(objects, key, default, cap) == text
  {
    TerminatedPrefix(text, cap);
  }

  lemma TerminatedPrefix(text: Text, n: nat)
    ensures CStr(Prefix(text + [NUL], n)) == Prefix(text, n)
    ensures CStr(Prefix(text, n)) == Prefix(text, n)
  {
    var m := if |text| < n then |text| else n;
    assert Prefix(text + [NUL], n)[..m] == Prefix(text, n);
    CStrIsUnique(Prefix(text + [NUL], n), m);
    assert Prefix(text, n)[..m] == Prefix(text, n);
    CStrIsUnique(Prefix(text, n), m);
  }

  /** What a buffer should show after a load: the default if there is no object; an object without
    a NUL in it, cut to leave a final NUL; and zeros to its end. */
  predicate ShowsSaved(buf: Bytes, objects: map<ObjectId, Bytes>, key: ObjectId, default: Bytes, cap: nat) {
    && (key !in objects && |default| <= cap ==> buf == default + Zeros(cap + 1 - |default|))
    && (key in objects && NUL !in objects[key] ==>
          var saved := objects[key];
          && (|saved| <= cap ==> buf == saved + Zeros(cap + 1 - |saved|))
          && (|saved| > cap ==> buf == saved[..cap] + [NUL]))
  }

  lemma LoadedBuffer(objects: map<ObjectId, Bytes>, key: ObjectId, default: Text, cap: nat)
    ensures ShowsSaved(Padded(Loaded(objects, key, default, cap), cap + 1), objects, key, default, cap)
  {
    var text := LookupOr(objects, key, default);
    if NUL !in text {
      TerminatedPrefix(text, cap);
      PaddedCut(text, cap);
    }
  }

  lemma RemovedObjectLoadsAsDefault(objects: map<ObjectId, Bytes>, removed: ObjectId,
      key: ObjectId, default: Text, cap: nat)
    requires |default| <= cap
    ensures Loaded(objects - {removed}, key, default, cap)
            == if key == removed then default else Loaded(objects, key, default, cap)
  {
    TerminatedPrefix(default, cap);
  }

  lemma RemovalInSettings(s: Settings, key: ObjectId)
    ensures var t := Apply(s, RemoveObject(key));
            && t.hostnames == s.hostnames && t.username == s.username
            && t.savedHostname == (if key == Hostname then DEFAULT_HOSTNAME else s.savedHostname)
            && t.savedUsername == (if key == SshUsername then DEFAULT_USERNAME else s.savedUsername)
  {
  }

  lemma CommitIsBothSaves(s: Settings, i: nat, hostnameStored: bool, usernameStored: bool)
    requires i < |s.hostnames|
    ensures var t := Apply(s, Commit(i, hostnameStored, usernameStored));
            && t.hostnames == s.hostnames && t.username == s.username
            && t.savedHostname == (if hostnameStored then s.hostnames[i] else s.savedHostname)
            && t.savedUsername == (if usernameStored then s.username else s.savedUsername)
  {
  }

  class Switch {
    const kvs: KeyValueStore
    const username: array<char>          // g_sshUsername
    const hostnames: seq<array<char>>    // m_hostname of every session
    ghost var settings: Settings

    /** Buffers as the C runtime leaves them, before anything is loaded. */
    constructor (kvs: KeyValueStore, sessions: nat)
      ensures Valid() && |hostnames| == sessions && this.kvs == kvs
      ensures fresh(username) && forall i :: 0 <= i < sessions ==> fresh(hostnames[i])
    {
      var user := new char[USERNAME_SIZE](_ => NUL);
      var buffers: seq<array<char>> := [];
      for n := 0 to sessions
        invariant |buffers| == n
        invariant forall i :: 0 <= i < n ==>
                    && fresh(buffers[i]) && buffers[i] != user && buffers[i].Length == HOSTNAME_SIZE
                    && buffers[i][..] == Zeros(HOSTNAME_SIZE)
        invariant forall i, j :: 0 <= i < j < n ==> buffers[i] != buffers[j]
        invariant user[..] == Zeros(USERNAME_SIZE)
      {
        var buf := new char[HOSTNAME_SIZE](_ => NUL);
        assert buf[..] == Zeros(HOSTNAME_SIZE);
        buffers := buffers + [buf];
      }
      this.kvs, username, hostnames := kvs, user, buffers;
      settings := Settings(seq(sessions, _ => []), [],
                           Loaded(kvs.objects, Hostname, DEFAULT_HOSTNAME, HOSTNAME_SIZE - 1),
                           Loaded(kvs.objects, SshUsername, DEFAULT_USERNAME, USERNAME_SIZE - 1));
      new;
      assert Zeros(USERNAME_SIZE) == Padded([], USERNAME_SIZE);
      assert Zeros(HOSTNAME_SIZE) == Padded([], HOSTNAME_SIZE);
    }

    /** A terminated buffer that holds the text and no residue after it. */
    static ghost predicate Holds(buf: array<char>, text: Bytes)
      reads buf
    {
      NUL !in text && |text| < buf.Length && buf[..] == Padded(text, buf.Length)
    }

    /** Buffers of the right sizes, all different, hold these texts. */
    ghost predicate BuffersHold(texts: seq<Bytes>, user: Bytes)
      reads username, hostnames
    {
      && username.Length == USERNAME_SIZE
      && |texts| == |hostnames|
      && (forall i :: 0 <= i < |hostnames| ==> hostnames[i].Length == HOSTNAME_SIZE && hostnames[i] != username)
      && (forall i, j :: 0 <= i < j < |hostnames| ==> hostnames[i] != hostnames[j])
      && (forall i :: 0 <= i < |hostnames| ==> Holds(hostnames[i], texts[i]))
      && Holds(username, user)
    }

    /** The buffers hold the texts of `settings`, and the store loads as what it says is saved. */
    ghost predicate Valid()
      reads this, kvs, username, hostnames
    {
      && BuffersHold(settings.hostnames, settings.username)
      && settings.savedHostname == Loaded(kvs.objects, Hostname, DEFAULT_HOSTNAME, HOSTNAME_SIZE - 1)
      && settings.savedUsername == Loaded(kvs.objects, SshUsername, DEFAULT_USERNAME, USERNAME_SIZE - 1)
    }

    /** LoadHostname */
    method LoadHostname(i: nat)
      requires Valid() && i < |hostnames|
      modifies this`settings, hostnames[i]
      ensures Valid() && settings == Apply(old(settings), OpenSession(i))
      ensures ShowsSaved(hostnames[i][..], kvs.objects, Hostname, "switch", 32)
    {
      var buf := hostnames[i];
      Clear(buf);
      LoadInto(buf, Hostname, DEFAULT_HOSTNAME);
      settings := Apply(settings, OpenSession(i));
    }

    /** LoadUsername */
    method LoadUsername()
      requires Valid()
      modifies this`settings, username
      ensures Valid() && settings == Apply(old(settings), RestartServer)
      ensures ShowsSaved(username[..], kvs.objects, SshUsername, "admin", 31)
    {
      FillUsername(settings.hostnames, settings.username);
      settings := settings.(username := settings.savedUsername);
    }

    method FillUsername(ghost texts: seq<Bytes>, ghost user: Bytes)
      requires BuffersHold(texts, user)
      modifies username
      ensures BuffersHold(texts, Loaded(kvs.objects, SshUsername, DEFAULT_USERNAME, USERNAME_SIZE - 1))
      ensures ShowsSaved(username[..], kvs.objects, SshUsername, DEFAULT_USERNAME, USERNAME_SIZE - 1)
    {
      Clear(username);
      LoadInto(username, SshUsername, DEFAULT_USERNAME);
    }

    /** The object, which need not be terminated, or the default, cut to leave a final NUL. */
    method LoadInto(buf: array<char>, key: ObjectId, default: Text)
      requires buf.Length > 0 && buf[..] == Zeros(buf.Length)
      requires |default| < buf.Length
      modifies buf
      ensures Holds(buf, Loaded(kvs.objects, key, default, buf.Length - 1))
      ensures ShowsSaved(buf[..], kvs.objects, key, default, buf.Length - 1)
    {
      CopySaved(buf, key, default);
      LoadedBuffer(kvs.objects, key, default, buf.Length - 1);
    }

    method CopySaved(buf: array<char>, key: ObjectId, default: Text)
      requires buf.Length > 0 && buf[..] == Zeros(buf.Length)
      requires |default| < buf.Length
      modifies buf
      ensures Holds(buf, Loaded(kvs.objects, key, default, buf.Length - 1))
    {
      var found, stored := kvs.ReadObject(key);
      var cap := buf.Length - 1;
      if found {
        var n := if |stored| < cap then |stored| else cap;
        assert Prefix(stored, n) == Prefix(stored, cap);
        CopyText(buf, stored, n);
      } else {
        CopyText(buf, default + [NUL], cap);
        TerminatedPrefix(default, cap);
      }
    }

    /** strncpy into a buffer whose bytes from n on are zero. */
    method CopyText(buf: array<char>, src: Bytes, n: nat)
      requires n < buf.Length && (forall k :: n <= k < buf.Length ==> buf[k] == NUL)
      requires n <= |src| || NUL in src
      modifies buf
      ensures Holds(buf, CStr(Prefix(src, n)))
    {
      assert buf[n..] == Zeros(buf.Length - n);
      Strncpy(buf, src, n);
      PaddedThenZeros(CStr(Prefix(src, n)), n, buf.Length - n);
    }

    /** "hostname": clear, then copy. */
    method OnHostname(i: nat, text: Text)
      requires Valid() && i < |hostnames|
      modifies this`settings, hostnames[i]
      ensures Valid() && settings == Apply(old(settings), EditHostname(i, text))
      ensures |text| <= 32 ==> hostnames[i][..] == text + Zeros(33 - |text|)
      ensures |text| > 32 ==> hostnames[i][..] == text[..32] + [NUL]
    {
      OverwriteHostname(i, text, settings.hostnames, settings.username);
      settings := settings.(hostnames := settings.hostnames[i := Prefix(text, HOSTNAME_SIZE - 1)]);
    }

    method OverwriteHostname(i: nat, text: Text, ghost texts: seq<Bytes>, ghost user: Bytes)
      requires BuffersHold(texts, user) && i < |hostnames|
      modifies hostnames[i]
      ensures BuffersHold(texts[i := Prefix(text, HOSTNAME_SIZE - 1)], user)
      ensures |text| <= 32 ==> hostnames[i][..] == text + Zeros(33 - |text|)
      ensures |text| > 32 ==> hostnames[i][..] == text[..32] + [NUL]
    {
      var buf := hostnames[i];
      Clear(buf);
      CopyArgument(buf, text);
    }

    /** A command argument into a buffer that ends in NUL: the text, cut if it must be, and zeros. */
    method CopyArgument(buf: array<char>, text: Text)
      requires buf.Length > 0 && buf[buf.Length - 1] == NUL
      modifies buf
      ensures Holds(buf, Prefix(text, buf.Length - 1))
      ensures |text| < buf.Length ==> buf[..] == text + Zeros(buf.Length - |text|)
      ensures |text| >= buf.Length ==> buf[..] == text[..buf.Length - 1] + [NUL]
    {
      CopyText(buf, text + [NUL], buf.Length - 1);
      TerminatedPrefix(text, buf.Length - 1);
      PaddedCut(text, buf.Length - 1);
    }

    /** "ssh username": copies over the old name without clearing it. */
    method OnUsername(text: Text)
      requires Valid()
      modifies this`settings, username
      ensures Valid() && settings == Apply(old(settings), EditUsername(text))
      ensures |text| <= 31 ==> username[..] == text + Zeros(32 - |text|)
      ensures |text| > 31 ==> username[..] == text[..31] + [NUL]
    {
      OverwriteUsername(text, settings.hostnames, settings.username);
      settings := settings.(username := Prefix(text, USERNAME_SIZE - 1));
    }

    method OverwriteUsername(text: Text, ghost texts: seq<Bytes>, ghost user: Bytes)
      requires BuffersHold(texts, user)
      modifies username
      ensures BuffersHold(texts, Prefix(text, USERNAME_SIZE - 1))
      ensures |text| <= 31 ==> username[..] == text + Zeros(32 - |text|)
      ensures |text| > 31 ==> username[..] == text[..31] + [NUL]
    {
      CopyArgument(username, text);
    }

    /** OnCommit. The flags say whether the flash takes a write that is necessary. */
    method OnCommit(i: nat, hostnameWorks: bool, usernameWorks: bool) returns (hostnameOk: bool, usernameOk: bool)
      requires Valid() && i < |hostnames|
      modifies this`settings, kvs
      ensures Valid() && settings == Apply(old(settings), Commit(i, hostnameOk, usernameOk))
      ensures (hostnameWorks ==> hostnameOk) && (usernameWorks ==> usernameOk)
    {
      ghost var before := settings;
      hostnameOk := SaveHostname(i, hostnameWorks);
      usernameOk := SaveUsername(usernameWorks);
      CommitIsBothSaves(before, i, hostnameOk, usernameOk);
    }

    method SaveHostname(i: nat, works: bool) returns (ok: bool)
      requires Valid() && i < |hostnames|
      modifies this`settings, kvs
      ensures Valid() && (works ==> ok)
      ensures settings == if ok then old(settings).(savedHostname := old(settings).hostnames[i]) else old(settings)
      ensures ok ==> CStr(hostnames[i][..]) == LookupOr(kvs.objects, Hostname, DEFAULT_HOSTNAME)
    {
      ok := Save(hostnames[i], settings.hostnames[i], Hostname, DEFAULT_HOSTNAME, works);
      if ok {
        settings := settings.(savedHostname := settings.hostnames[i]);
      }
    }

    method SaveUsername(works: bool) returns (ok: bool)
      requires Valid()
      modifies this`settings, kvs
      ensures Valid() && (works ==> ok)
      ensures settings == if ok then old(settings).(savedUsername := old(settings).username) else old(settings)
      ensures ok ==> CStr(username[..]) == LookupOr(kvs.objects, SshUsername, DEFAULT_USERNAME)
      ensures LookupOr(kvs.objects, Hostname, DEFAULT_HOSTNAME)
              == old(LookupOr(kvs.objects, Hostname, DEFAULT_HOSTNAME))
    {
      ok := Save(username, settings.username, SshUsername, DEFAULT_USERNAME, works);
      if ok {
        settings := settings.(savedUsername := settings.username);
      }
    }

    /** Stores the text of a buffer so that loading it again with the cap of that buffer gives
      the same text. */
    method Save(buf: array<char>, ghost text: Bytes, key: ObjectId, default: Text, works: bool) returns (ok: bool)
      requires Holds(buf, text)
      modifies kvs
      ensures works ==> ok
      ensures ok ==> Loaded(kvs.objects, key, default, buf.Length - 1) == text
      ensures ok ==> LookupOr(kvs.objects, key, default) == CStr(buf[..])
      ensures forall k, d :: k != key ==> LookupOr(kvs.objects, k, d) == old(LookupOr(kvs.objects, k, d))
      ensures !ok ==> kvs.objects == old(kvs.objects)
      ensures forall k, d, cap :: k != key ==> Loaded(kvs.objects, k, d, cap) == old(Loaded(kvs.objects, k, d, cap))
    {
      CStrOfPadded(text, buf.Length);
      ok := kvs.StoreStringObjectIfNecessary(key, CStr(buf[..]), default, works);
      if ok {
        StoredTextLoads(kvs.objects, key, default, buf.Length - 1, text);
      }
    }

    /** "no flash <key>" */
    method OnNoFlash(key: ObjectId)
      requires Valid()
      modifies this`settings, kvs
      ensures Valid() && settings == Apply(old(settings), RemoveObject(key))
    {
      Remove(key, settings.hostnames, settings.username);
      RemovalInSettings(settings, key);
      settings := Apply(settings, RemoveObject(key));
    }

    method Remove(key: ObjectId, ghost texts: seq<Bytes>, ghost user: Bytes)
      requires BuffersHold(texts, user)
      modifies kvs
      ensures BuffersHold(texts, user)
      ensures Loaded(kvs.objects, Hostname, DEFAULT_HOSTNAME, HOSTNAME_SIZE - 1)
              == if key == Hostname then DEFAULT_HOSTNAME
                 else old(Loaded(kvs.objects, Hostname, DEFAULT_HOSTNAME, HOSTNAME_SIZE - 1))
      ensures Loaded(kvs.objects, SshUsername, DEFAULT_USERNAME, USERNAME_SIZE - 1)
              == if key == SshUsername then DEFAULT_USERNAME
                 else old(Loaded(kvs.objects, SshUsername, DEFAULT_USERNAME, USERNAME_SIZE - 1))
    {
      RemovedObjectLoadsAsDefault(kvs.objects, key, Hostname, DEFAULT_HOSTNAME, HOSTNAME_SIZE - 1);
      RemovedObjectLoadsAsDefault(kvs.objects, key, SshUsername, DEFAULT_USERNAME, USERNAME_SIZE - 1);
      kvs.RemoveObject(key);
    }

    /** OnRollback, for the two fields modelled here. */
    method OnRollback(i: nat)
      requires Valid() && i < |hostnames|
      modifies this`settings, hostnames[i], username
      ensures Valid() && settings == Apply(old(settings), Rollback(i))
    {
      RollbackIsBothLoads(settings, i);
      LoadHostname(i);
      LoadUsername();
    }
  }
}
