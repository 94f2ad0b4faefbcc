/** Which password a session logs in with, where it came from, and what is remembered.
    `H` hashes a password with the peer's salt, which does not change. */
module LoginPassword {
  import opened ByteData

  type Hasher = string -> Bytes

  /** Every hash is a SHA-256 digest. */
  ghost predicate IsDigest(H: Hasher) {
    forall p: string :: |H(p)| == 32
  }

  datatype PasswordSource = PersonalAb(hash: Bytes) | SharedAb(password: string) | Undefined
  {
    predicate IsPersonalAb(password: Bytes) {
      password != [] && PersonalAb? && hash == password
    }

    predicate IsSharedAb(H: Hasher, connected: Bytes) {
      connected != [] && SharedAb? && connected == H(password)
    }
  }

  /** The fields of the handler that matter here; `disk` is the stored peer configuration and `config`
      the copy in memory, of which only the password matters. */
  datatype Login = Login(
    password: Bytes,
    source: PasswordSource,
    remember: bool,
    shared: string,
    switchUuid: bool,
    config: Bytes,
    disk: Bytes)

  /** What the environment offers when the peer sends its hash; empty means not available. */
  datatype Offer = Offer(preset: string, personal: Bytes, builtin: string,
                         switchTrusted: bool, incomingOnly: bool)

  datatype Event =
    | HashReceived(offer: Offer)
    | UiLogin(password: string, remember: bool)
    | LoginError(wrongOrEmpty: bool)
    | PeerInfo
    | StoredElsewhere(stored: Bytes)

  /** No switch of sides was accepted, and logging in with a password is allowed. */
  predicate PasswordLogin(switchUuid: bool, o: Offer) {
    !(switchUuid && o.switchTrusted) && !o.incomingOnly
  }

  // ----- the effect of each event

  /** The password for the next login: a shared one first, then the last one, and so on. */
  function Choose(H: Hasher, s: Login, o: Offer): (choice: (Bytes, PasswordSource)) {
    if s.shared != "" then (H(s.shared), SharedAb(s.shared))
    else if s.password != [] then (s.password, s.source)
    else if o.preset != "" then (H(o.preset), Undefined)
    else if s.config != [] then (s.config, Undefined)
    else if o.personal != [] then (o.personal, PersonalAb(o.personal))
    else if o.builtin != "" then (H(o.builtin), SharedAb(o.builtin))
    else ([], s.source)
  }

  function OnHash(H: Hasher, s: Login, o: Offer): (s': Login) {
    if s.switchUuid && o.switchTrusted then s.(switchUuid := false, source := Undefined)
    else if o.incomingOnly then s.(switchUuid := false)
    else
      var (password, source) := Choose(H, s, o);
      s.(switchUuid := false, shared := "", password := password, source := source)
  }

  function OnUiLogin(H: Hasher, s: Login, password: string, remember: bool): (s': Login) {
    if password != "" then s.(password := H(password), source := Undefined, remember := remember)
    else if s.password == [] && s.config != [] then s.(password := s.config, source := Undefined)
    else s
  }

  /** The password that the stored configuration has afterwards. */
  function Remembered(H: Hasher, s: Login): (p: Bytes) {
    if s.remember then
      if s.password != [] && !s.source.IsSharedAb(H, s.password) then s.password else s.disk
    else
      if s.source.IsPersonalAb(s.password) then s.password else []
  }

  function OnPeerInfo(H: Hasher, s: Login): (s': Login) {
    s.(disk := Remembered(H, s), config := Remembered(H, s))
  }

  function Step(H: Hasher, s: Login, e: Event): (s': Login) {
    match e
    case HashReceived(o) => OnHash(H, s, o)
    case UiLogin(password, remember) => OnUiLogin(H, s, password, remember)
    case LoginError(wrongOrEmpty) => if wrongOrEmpty then s.(password := []) else s
    case PeerInfo => OnPeerInfo(H, s)
    case StoredElsewhere(stored) => s.(disk := stored)
  }

  // ----- the handler

  class LoginConfigHandler {
    var password: Bytes
    var passwordSource: PasswordSource
    var remember: bool
    var sharedPassword: string
    var switchUuid: bool
    var config: Bytes
    var disk: Bytes

    function State(): (s: Login)
      reads this
    {
      Login(password, passwordSource, remember, sharedPassword, switchUuid, config, disk)
    }

    /** `initialize` on a new handler; `token` is a connection token's password and source. */
    constructor (stored: Bytes, token: (Bytes, PasswordSource), shared: string, switchUuid: bool)
      ensures State() == Login(token.0, token.1, stored != [], shared, switchUuid, stored, stored)
    {
      remember := stored != [];
      config, disk := stored, stored;
      password, passwordSource := token.0, token.1;
      this.switchUuid := switchUuid;
      sharedPassword := shared;
    }

    method HandleHash(H: Hasher, o: Offer) returns (ok: bool)
      requires IsDigest(H)
      modifies this
      ensures State() == Step(H, old(State()), HashReceived(o))
      ensures ok <==> !o.incomingOnly || (old(switchUuid) && o.switchTrusted)
      ensures !switchUuid && remember == old(remember) && config == old(config) && disk == old(disk)
      ensures old(switchUuid) && o.switchTrusted ==>
                password == old(password) && passwordSource == Undefined && sharedPassword == old(sharedPassword)
      ensures !ok ==> password == old(password) && passwordSource == old(passwordSource)
                      && sharedPassword == old(sharedPassword)
      ensures ok && !(old(switchUuid) && o.switchTrusted) ==> sharedPassword == ""
      // the six sources of a password login, each only when those before it have nothing to offer
      ensures PasswordLogin(old(switchUuid), o) && old(sharedPassword) != "" ==>
                password == H(old(sharedPassword)) && passwordSource == SharedAb(old(sharedPassword))
      ensures PasswordLogin(old(switchUuid), o) && old(sharedPassword) == "" && old(password) != [] ==>
                password == old(password) && passwordSource == old(passwordSource)
      ensures PasswordLogin(old(switchUuid), o) && old(sharedPassword) == "" && old(password) == [] && o.preset != "" ==>
                password == H(o.preset) && passwordSource == Undefined
      ensures PasswordLogin(old(switchUuid), o) && old(sharedPassword) == "" && old(password) == [] && o.preset == ""
              && config != [] ==>
                password == config && passwordSource == Undefined
      ensures PasswordLogin(old(switchUuid), o) && old(sharedPassword) == "" && old(password) == [] && o.preset == ""
              && config == [] && o.personal != [] ==>
                password == o.personal && passwordSource == PersonalAb(o.personal)
      ensures PasswordLogin(old(switchUuid), o) && old(sharedPassword) == "" && old(password) == [] && o.preset == ""
              && config == [] && o.personal == [] ==>
                if o.builtin != "" then password == H(o.builtin) && passwordSource == SharedAb(o.builtin)
                else password == [] && passwordSource == old(passwordSource)
    {
      var uuid := switchUuid;
      switchUuid := false;
      if uuid && o.switchTrusted {
        passwordSource := Undefined;
        return true;
      }
      if o.incomingOnly {
        return false;
      }
      var pw := password;
      if pw == [] && o.preset != "" {
        pw := H(o.preset);
        passwordSource := Undefined;
      }
      var shared := sharedPassword;
      sharedPassword := "";
      if shared != "" {
        pw := H(shared);
        passwordSource := SharedAb(shared);
      }
      if pw == [] {
        pw := config;
        if pw != [] {
          passwordSource := Undefined;
        }
      }
      if pw == [] && o.personal != [] {
        pw := o.personal;
        passwordSource := PersonalAb(o.personal);
      }
      if pw == [] && o.builtin != "" {
        pw := H(o.builtin);
        passwordSource := SharedAb(o.builtin);
      }
      password := pw;
      return true;
    }

    method HandleLoginFromUi(H: Hasher, typed: string, rememberIt: bool)
      modifies this
      ensures State() == Step(H, old(State()), UiLogin(typed, rememberIt))
      ensures config == old(config) && disk == old(disk) && switchUuid == old(switchUuid)
      ensures sharedPassword == old(sharedPassword)
      ensures typed != "" ==> password == H(typed) && passwordSource == Undefined && remember == rememberIt
      ensures typed == "" && old(password) == [] && config != [] ==>
                password == config && passwordSource == Undefined && remember == old(remember)
      ensures typed == "" && (old(password) != [] || config == []) ==> State() == old(State())
    {
      var hashed;
      if typed == "" {
        hashed := password;
        if hashed == [] {
          hashed := config;
          if hashed != [] {
            passwordSource := Undefined;
          }
        }
      } else {
        passwordSource := Undefined;
        hashed := H(typed);
        remember := rememberIt;
      }
      password := hashed;
    }

    method HandleLoginError(wrongOrEmpty: bool)
      modifies this
      ensures forall H: Hasher :: State() == Step(H, old(State()), LoginError(wrongOrEmpty))
      ensures State() == old(State()).(password := if wrongOrEmpty then [] else old(password))
    {
      if wrongOrEmpty {
        password := [];
      }
    }

    /** Also returns the password handed to the personal address book, if any. */
    method HandlePeerInfo(H: Hasher) returns (synced: Bytes)
      modifies this
      ensures State() == Step(H, old(State()), PeerInfo)
      ensures State() == old(State()).(disk := disk, config := disk)
      ensures remember && password != [] && (forall p :: passwordSource == SharedAb(p) ==> password != H(p)) ==>
                disk == password
      ensures remember && (password == [] || exists p :: passwordSource == SharedAb(p) && password == H(p)) ==>
                disk == old(disk)
      ensures !remember ==> disk == if password != [] && passwordSource == PersonalAb(password) then password else []
      ensures synced == if disk != [] && !passwordSource.IsSharedAb(H, password)
                           && !passwordSource.IsPersonalAb(password) then disk else []
    {
      var stored := disk;
      var stored0 := stored;
      if remember {
        if password != [] && password != stored0 && !passwordSource.IsSharedAb(H, password) {
          stored := password;
        }
      } else {
        if passwordSource.IsPersonalAb(password) {
          stored := password;
        } else if stored0 != [] {
          stored := [];
        }
      }
      synced := [];
      if stored != [] && !passwordSource.IsSharedAb(H, password) && !passwordSource.IsPersonalAb(password) {
        synced := stored;
      }
      disk, config := stored, stored;
    }
  }

  // ----- provenance

  /** A login with the record of which of its three passwords came from a shared address book (or the
      built-in default password, which is treated the same). */
  datatype Traced = Traced(s: Login, passwordShared: bool, configShared: bool, diskShared: bool)

  /** How that record moves with each event. */
  function Trace(H: Hasher, t: Traced, e: Event): (t': Traced) {
    var s := t.s;
    var s' := Step(H, s, e);
    match e
    case HashReceived(o) =>
      var kept := (s.switchUuid && o.switchTrusted) || o.incomingOnly;
      var passwordShared :=
        if kept then t.passwordShared
        else if s.shared != "" then true
        else if s.password != [] then t.passwordShared
        else if o.preset != "" then false
        else if s.config != [] then t.configShared
        else o.personal == [] && o.builtin != "";
      t.(s := s', passwordShared := passwordShared)
    case UiLogin(password, _) =>
      var passwordShared :=
        if password != "" then false else if s.password == [] then t.configShared else t.passwordShared;
      t.(s := s', passwordShared := passwordShared)
    case LoginError(_) => t.(s := s')
    case PeerInfo =>
      var stored :=
        if s'.disk == s.disk then t.diskShared else s'.disk == s.password != [] && t.passwordShared;
      t.(s := s', diskShared := stored, configShared := stored)
    case StoredElsewhere(_) => t.(s := s', diskShared := false)
  }

  function RunTrace(H: Hasher, t: Traced, events: seq<Event>): (t': Traced) {
    if events == [] then t
    else Trace(H, RunTrace(H, t, events[..|events| - 1]), events[|events| - 1])
  }

  /** The recorded source tells the truth about the password. */
  predicate SourceIsTrue(H: Hasher, s: Login) {
    match s.source
    case SharedAb(p) => s.password == [] || s.password == H(p)
    case PersonalAb(h) => s.password == [] || s.password == h
    case Undefined => true
  }

  /** A shared password whose source has been forgotten. */
  predicate Forgotten(t: Traced) {
    t.passwordShared && t.s.password != [] && !t.s.source.SharedAb?
  }

  /** A switch-sides session that starts with a shared password and remembers passwords. */
  predicate SwitchingWithShared(t: Traced) {
    t.s.switchUuid && t.s.remember && t.passwordShared && t.s.password != []
  }

  predicate Sound(H: Hasher, t: Traced) {
    && SourceIsTrue(H, t.s)
    && (Forgotten(t) ==> t.s.source == Undefined && !t.s.remember)
    && !SwitchingWithShared(t)
    && !t.diskShared && !t.configShared
  }

  lemma StepKeepsSound(H: Hasher, t: Traced, e: Event)
    requires IsDigest(H) && Sound(H, t)
    ensures Sound(H, Trace(H, t, e))
  {
  }

  lemma {:induction false} RunKeepsSound(H: Hasher, t: Traced, events: seq<Event>)
    requires IsDigest(H) && Sound(H, t)
    ensures Sound(H, RunTrace(H, t, events))
  {
    if events != [] {
      RunKeepsSound(H, t, events[..|events| - 1]);
      StepKeepsSound(H, RunTrace(H, t, events[..|events| - 1]), events[|events| - 1]);
    }
  }

  /** A session before its first event: what a connection token says about its password is true. */
  predicate Fresh(H: Hasher, t: Traced) {
    SourceIsTrue(H, t.s) && !Forgotten(t) && !t.configShared && !t.diskShared
  }

  /** Over every sequence of events, a shared password is never newly stored in the peer configuration,
      exactly unless the session starts switching sides with a shared password and remembers. */
  lemma SharedPasswordIsNeverStored(H: Hasher, t: Traced)
    requires IsDigest(H) && Fresh(H, t)
    ensures (forall events: seq<Event> :: !RunTrace(H, t, events).diskShared) <==> !SwitchingWithShared(t)
  {
    if !SwitchingWithShared(t) {
      forall events: seq<Event> ensures !RunTrace(H, t, events).diskShared {
        RunKeepsSound(H, t, events);
      }
    } else {
      StoresAfterSwitch(H, t);
    }
  }

  /** The run that stores it: the switch is accepted, which forgets the source, and the peer answers. */
  lemma StoresAtOnce(H: Hasher, t: Traced)
    requires SwitchingWithShared(t) && t.s.disk != t.s.password
    ensures RunTrace(H, t, [HashReceived(SWITCH_ACCEPTED), PeerInfo]).diskShared
  {
    var switched := HashReceived(SWITCH_ACCEPTED);
    assert [switched][..0] == [] && [switched, PeerInfo][..1] == [switched];
    assert RunTrace(H, t, [switched]) == Trace(H, RunTrace(H, t, []), switched);
  }

  const SWITCH_ACCEPTED: Offer := Offer("", [], "", true, false)

  /** When that password is stored already, it is stored again after it was replaced in the meantime. */
  lemma StoresAfterSwitch(H: Hasher, t: Traced)
    requires SwitchingWithShared(t)
    ensures exists events: seq<Event> :: RunTrace(H, t, events).diskShared
  {
    if t.s.disk != t.s.password {
      StoresAtOnce(H, t);
    } else {
      var cleared := StoredElsewhere([]);
      var switched := HashReceived(SWITCH_ACCEPTED);
      var two, three := [cleared, switched], [cleared, switched, PeerInfo];
      assert [cleared][..0] == [] && two[..1] == [cleared] && three[..2] == two;
      var t1 := RunTrace(H, t, [cleared]);
      var t2 := RunTrace(H, t, two);
      var t3 := RunTrace(H, t, three);
      assert t1 == Trace(H, RunTrace(H, t, []), cleared);
      assert t2 == Trace(H, t1, switched) && t3 == Trace(H, t2, PeerInfo);
    }
  }

  /** A session that does not switch sides with a shared password. */
  predicate TrueToken(H: Hasher, t: Traced) {
    Fresh(H, t) && !(t.s.switchUuid && t.passwordShared && t.s.password != [])
  }

  lemma StepKeepsTokenTrue(H: Hasher, t: Traced, e: Event)
    requires IsDigest(H) && TrueToken(H, t)
    ensures TrueToken(H, Trace(H, t, e))
  {
  }

  /** Such a session never forgets a source, so the connection tokens it hands on are true as well. */
  lemma {:induction false} TokensStayTrue(H: Hasher, t: Traced, events: seq<Event>)
    requires IsDigest(H) && TrueToken(H, t)
    ensures TrueToken(H, RunTrace(H, t, events))
  {
    if events != [] {
      TokensStayTrue(H, t, events[..|events| - 1]);
      StepKeepsTokenTrue(H, RunTrace(H, t, events[..|events| - 1]), events[|events| - 1]);
    }
  }

  /** One of the first `n` events stored `p`, and `p` does not come from a shared address book. */
  ghost predicate StoredUnshared(H: Hasher, t: Traced, events: seq<Event>, n: nat, p: Bytes)
    requires n <= |events|
  {
    exists k :: 0 < k <= n && events[k - 1] == PeerInfo
                && p == RunTrace(H, t, events[..k]).s.disk && !RunTrace(H, t, events[..k]).diskShared
  }

  ghost predicate AllUnshared(H: Hasher, t: Traced, events: seq<Event>, n: nat, synced: seq<Bytes>)
    requires n <= |events|
  {
    forall p | p in synced :: StoredUnshared(H, t, events, n, p)
  }

  /** One more event, which may hand over what it stored. */
  lemma OneMoreSynced(H: Hasher, t: Traced, events: seq<Event>, n: nat, synced: seq<Bytes>, handed: Bytes)
    requires n < |events| && AllUnshared(H, t, events, n, synced) && Sound(H, RunTrace(H, t, events[..n + 1]))
    requires handed != [] ==> events[n] == PeerInfo && handed == RunTrace(H, t, events[..n + 1]).s.disk
    ensures AllUnshared(H, t, events, n + 1, if handed == [] then synced else synced + [handed])
  {
    forall p | p in synced ensures StoredUnshared(H, t, events, n + 1, p) {
      assert StoredUnshared(H, t, events, n, p);
    }
    if handed != [] {
      assert events[n + 1 - 1] == PeerInfo;
    }
  }

  /** One event on the handler itself. */
  method Handle(H: Hasher, h: LoginConfigHandler, e: Event) returns (synced: Bytes)
    requires IsDigest(H)
    modifies h
    ensures h.State() == Step(H, old(h.State()), e)
    ensures synced != [] ==> e == PeerInfo && synced == h.disk && !h.passwordSource.IsSharedAb(H, h.password)
  {
    synced := [];
    match e {
      case HashReceived(o) => var _ := h.HandleHash(H, o);
      case UiLogin(password, remember) => h.HandleLoginFromUi(H, password, remember);
      case LoginError(wrongOrEmpty) => h.HandleLoginError(wrongOrEmpty);
      case PeerInfo => synced := h.HandlePeerInfo(H);
      case StoredElsewhere(stored) => h.disk := stored;
    }
  }

  /** Any sequence of events; what is handed to the personal address book is never a shared password. */
  method Session(H: Hasher, h: LoginConfigHandler, events: seq<Event>, ghost t: Traced)
    returns (synced: seq<Bytes>)
    requires IsDigest(H) && Sound(H, t) && h.State() == t.s
    modifies h
    ensures h.State() == RunTrace(H, t, events).s && Sound(H, RunTrace(H, t, events))
    ensures AllUnshared(H, t, events, |events|, synced)
  {
    synced := [];
    for i := 0 to |events|
      invariant h.State() == RunTrace(H, t, events[..i]).s && Sound(H, RunTrace(H, t, events[..i]))
      invariant AllUnshared(H, t, events, i, synced)
    {
      assert events[..i + 1][..i] == events[..i];
      StepKeepsSound(H, RunTrace(H, t, events[..i]), events[i]);
      var handed := Handle(H, h, events[i]);
      OneMoreSynced(H, t, events, i, synced, handed);
      if handed != [] {
        synced := synced + [handed];
      }
    }
    assert events[..|events|] == events;
  }
}
