/**
  Where a login password comes from and when it may be remembered: `handle_hash`,
  `handle_login_from_ui`, `handle_login_error` and `handle_peer_info` on one `LoginConfigHandler`.

  A `Mark` is the history of a password, how it was obtained; it is ghost, so it decides nothing. The
  password hash is a parameter.
*/
module LoginPassword {
  import opened Prelude

  type Bytes = seq<int>

  /** `hash(text, salt)`, the digest every stored and sent password is. */
  type Digest = (string, string) -> Bytes

  ghost predicate IsDigest(hash: Digest) {
    forall text, salt :: hash(text, salt) != []
  }

  datatype PasswordSource = PersonalAb(hash: Bytes) | SharedAb(text: string) | Undefined

  predicate IsPersonalAb(source: PasswordSource, password: Bytes) {
    password != [] && source.PersonalAb? && source.hash == password
  }

  predicate IsSharedAb(source: PasswordSource, password: Bytes, hash: Digest, salt: string) {
    password != [] && source.SharedAb? && hash(source.text, salt) == password
  }

  datatype Origin = Nowhere | Earlier | Preset | Typed | PeerConfig | PersonalBook | SharedBook | DefaultConnect

  /** The passwords that must not end up in a peer's own config. */
  predicate IsShared(o: Origin) {
    o == SharedBook || o == DefaultConnect
  }

  /** Where a password came from, the salt it was derived under, and whether a switch of sides was
      accepted since. */
  datatype Mark = Mark(origin: Origin, derivedSalt: string, switched: bool)

  /** A password that was written to the peer's config, under the salt of that moment. */
  datatype Write = Write(password: Bytes, salt: string, mark: Mark)

  datatype Event =
    | HashReceived(salt: string, switchAccepted: bool, preset: string, personalHash: Bytes, defaultConnect: string)
    | LoginFromUi(text: string, remember: bool)
    | LoginError(passwordRejected: bool)
    | PeerInfo(stored: Bytes)  // the config password found on disk

  /** `ConnToken`: a password carried over to the next connection, with its source. */
  datatype Token = Token(password: Bytes, source: PasswordSource)

  /** The source of a shared password says so, with the text it was derived from, until an accepted
      switch of sides resets it. */
  predicate Marked(hash: Digest, t: Token, mark: Mark) {
    && (t.password == [] ==> mark.origin == Nowhere)
    && (IsShared(mark.origin) ==>
          && (mark.switched ==> t.source == Undefined)
          && (!mark.switched ==> t.source.SharedAb? && t.password == hash(t.source.text, mark.derivedSalt)))
  }

  const NO_TOKEN: Token := Token([], Undefined)
  const NO_MARK: Mark := Mark(Nowhere, "", false)

  class LoginConfigHandler {
    const hash: Digest
    var salt: string
    var password: Bytes
    var source: PasswordSource
    var sharedPassword: Option<string>
    var remember: bool
    var configPassword: Bytes
    ghost var mark: Mark

    ghost predicate Valid()
      reads this
    {
      IsDigest(hash) && Marked(hash, Token(password, source), mark)
    }

    /** `initialize`, with what an earlier connection left behind. */
    constructor (hash: Digest, stored: Bytes, shared: Option<string>, token: Token, ghost mark: Mark)
      requires IsDigest(hash) && Marked(hash, token, mark)
      ensures Valid() && this.hash == hash && sharedPassword == shared
      ensures Token(password, source) == token && this.mark == mark
      ensures remember == (stored != []) && configPassword == stored
    {
      this.hash, salt := hash, "";
      password, source, sharedPassword := token.password, token.source, shared;
      remember, configPassword := stored != [], stored;
      this.mark := mark;
    }

    /** `get_conn_token`: what the next connection is given still tells where it came from. */
    method GetConnToken() returns (token: Option<Token>)
      requires Valid()
      ensures token.None? <==> password == []
      ensures token.Some? ==> token.value == Token(password, source) && Marked(hash, token.value, mark)
    {
      token := if password == [] then None else Some(Token(password, source));
    }

    method Use(password: Bytes, source: PasswordSource, ghost origin: Origin)
      requires IsDigest(hash) && password != []
      requires IsShared(origin) ==> source.SharedAb? && password == hash(source.text, salt)
      modifies `password, `source, `mark
      ensures Valid() && this.password == password && this.source == source && mark == Mark(origin, salt, false)
    {
      this.password, this.source, mark := password, source, Mark(origin, salt, false);
    }

    /** `handle_hash`: the first password there is, in order of preference. */
    method HandleHash(e: Event)
      requires Valid() && e.HashReceived?
      modifies this
      ensures Valid() && salt == e.salt && configPassword == old(configPassword) && remember == old(remember)
      // A password at hand stays, unless a shared one was put aside for this connection.
      ensures !e.switchAccepted && old(password) != [] && (old(sharedPassword).None? || old(sharedPassword).value == "") ==>
                password == old(password) && source == old(source) && mark == old(mark)
      ensures !e.switchAccepted ==> sharedPassword == None
      ensures !e.switchAccepted && old(sharedPassword).Some? && old(sharedPassword).value != "" ==>
                && source == SharedAb(old(sharedPassword).value) && mark == Mark(SharedBook, salt, false)
                && password == hash(old(sharedPassword).value, salt)
      ensures e.switchAccepted ==>
                && source == Undefined && password == old(password) && mark == old(mark).(switched := true)
                && sharedPassword == old(sharedPassword)
      // With none at hand and none put aside: the preset one, the stored one, that of the personal
      // address book, the default one, or none.
      ensures !e.switchAccepted && old(password) == [] && (old(sharedPassword).None? || old(sharedPassword).value == "") ==>
                if e.preset != "" then
                  password == hash(e.preset, salt) && source == Undefined && mark.origin == Preset
                else if configPassword != [] then
                  password == configPassword && source == Undefined && mark.origin == PeerConfig
                else if e.personalHash != [] then
                  password == e.personalHash && source == PersonalAb(e.personalHash) && mark.origin == PersonalBook
                else if e.defaultConnect != "" then
                  password == hash(e.defaultConnect, salt) && source == SharedAb(e.defaultConnect)
                  && mark.origin == DefaultConnect
                else password == [] && source == old(source) && mark == old(mark)
      ensures !e.switchAccepted && IsShared(mark.origin) ==>
                mark == Mark(mark.origin, salt, false) || mark == old(mark)
    {
      salt := e.salt;
      if e.switchAccepted {
        source := Undefined;
        mark := mark.(switched := true);
        return;
      }
      if password == [] && e.preset != "" {
        Use(hash(e.preset, salt), Undefined, Preset);
      }
      var shared := sharedPassword;
      sharedPassword := None;
      if shared.Some? && shared.value != "" {
        Use(hash(shared.value, salt), SharedAb(shared.value), SharedBook);
      }
      if password == [] && configPassword != [] {
        Use(configPassword, Undefined, PeerConfig);
      }
      if password == [] && e.personalHash != [] {
        Use(e.personalHash, PersonalAb(e.personalHash), PersonalBook);
      }
      if password == [] && e.defaultConnect != "" {
        Use(hash(e.defaultConnect, salt), SharedAb(e.defaultConnect), DefaultConnect);
      }
    }

    /** `handle_login_from_ui`: nothing typed means the password at hand, or the stored one. */
    method HandleLoginFromUi(text: string, rememberIt: bool)
      requires Valid()
      modifies this
      ensures Valid() && salt == old(salt) && configPassword == old(configPassword)
      ensures text != "" ==>
                mark.origin == Typed && password == hash(text, salt) && source == Undefined && remember == rememberIt
      ensures text == "" && (old(password) != [] || configPassword == []) ==>
                password == old(password) && source == old(source) && mark == old(mark)
      ensures text == "" && old(password) == [] && configPassword != [] ==>
                password == configPassword && source == Undefined && mark.origin == PeerConfig
      ensures text == "" ==> remember == old(remember)
      ensures IsShared(mark.origin) ==> mark == old(mark)
    {
      if text == "" {
        if password == [] && configPassword != [] {
          Use(configPassword, Undefined, PeerConfig);
        }
      } else {
        Use(hash(text, salt), Undefined, Typed);
        remember := rememberIt;
      }
    }

    /** `handle_login_error`: a rejected or missing password is forgotten, its source is not. */
    method HandleLoginError(passwordRejected: bool)
      requires Valid()
      modifies `password, `mark
      ensures Valid()
      ensures passwordRejected ==> password == [] && mark.origin == Nowhere
      ensures !passwordRejected ==> password == old(password) && mark == old(mark)
    {
      if passwordRejected {
        password, mark := [], mark.(origin := Nowhere);
      }
    }

    /** `handle_peer_info`: the login succeeded; remember its password, or forget the stored one. */
    method HandlePeerInfo(stored: Bytes) returns (written: Option<Bytes>)
      requires Valid()
      modifies `configPassword
      ensures Valid()
      ensures written.Some? ==> configPassword == password == written.value != []
      // Remembered passwords are written unless they are stored already or shared, others only if they
      // come from the personal address book; and what is not to be remembered is forgotten.
      ensures written.Some? <==>
                if remember then password != [] && password != stored && !IsSharedAb(source, password, hash, salt)
                else IsPersonalAb(source, password)
      ensures written.None? ==> configPassword == if remember then stored else []
      // A shared password is written exactly when its source no longer recognises it.
      ensures IsShared(mark.origin) ==>
                (written.Some? <==>
                   remember && password != stored && (mark.switched || hash(source.text, salt) != password))
    {
      written := None;
      configPassword := stored;
      if remember {
        if password != [] && password != stored && !IsSharedAb(source, password, hash, salt) {
          configPassword := password;
          written := Some(password);
        }
      } else if IsPersonalAb(source, password) {
        configPassword := password;
        written := Some(password);
      } else if stored != [] {
        configPassword := [];
      }
    }
  }

  /** Every hash message carries the same salt and none is answered by a switch of sides; a shared
      password carried over was derived under that salt and is first met by a hash message. */
  predicate Steady(mark: Mark, events: seq<Event>, salt: string) {
    && (forall i | 0 <= i < |events| :: events[i].HashReceived? ==> events[i].salt == salt && !events[i].switchAccepted)
    && (IsShared(mark.origin) ==>
          mark.derivedSalt == salt && !mark.switched && (|events| > 0 ==> events[0].HashReceived?))
  }

  /** A shared or default password is written only after the salt it was derived under was replaced
      by another, or after a switch of sides was accepted. */
  predicate Excused(w: Write) {
    IsShared(w.mark.origin) ==> w.mark.switched || w.salt != w.mark.derivedSalt
  }

  /** Any sequence of events on one connection, what it wrote to the peer's config, and the history of
      each of those passwords. */
  method Session(hash: Digest, stored: Bytes, shared: Option<string>, token: Token, events: seq<Event>,
                 ghost mark: Mark, ghost salt: string)
    returns (writes: seq<Bytes>, ghost history: seq<Write>)
    requires IsDigest(hash) && Marked(hash, token, mark)
    ensures |history| == |writes| && forall i | 0 <= i < |writes| :: history[i].password == writes[i] != []
    ensures forall i | 0 <= i < |history| :: Excused(history[i])
    ensures Steady(mark, events, salt) ==> forall i | 0 <= i < |history| :: !IsShared(history[i].mark.origin)
  {
    var handler := new LoginConfigHandler(hash, stored, shared, token, mark);
    writes, history := [], [];
    for i := 0 to |events|
      invariant handler.Valid() && fresh(handler)
      invariant |history| == |writes| && forall j | 0 <= j < |writes| :: history[j].password == writes[j] != []
      invariant forall j | 0 <= j < |history| :: Excused(history[j])
      invariant Steady(mark, events, salt) && IsShared(handler.mark.origin) ==>
                  && handler.mark.derivedSalt == salt && !handler.mark.switched
                  && (handler.salt == salt || (i == 0 && IsShared(mark.origin)))
      invariant Steady(mark, events, salt) ==> forall j | 0 <= j < |history| :: !IsShared(history[j].mark.origin)
    {
      match events[i] {
        case HashReceived(_, _, _, _, _) =>
          handler.HandleHash(events[i]);
        case LoginFromUi(text, remember) =>
          handler.HandleLoginFromUi(text, remember);
        case LoginError(rejected) =>
          handler.HandleLoginError(rejected);
        case PeerInfo(found) =>
          var written := handler.HandlePeerInfo(found);
          if written.Some? {
            writes := writes + [written.value];
            history := history + [Write(handler.password, handler.salt, handler.mark)];
          }
      }
    }
  }

  /** Both excuses happen. With a remembered peer, a shared password derived under one salt is
      written once a hash message brings another salt, and so it is after a switch of sides. */
  method SharedPasswordEscapes(hash: Digest, stored: Bytes, shared: string, salt: string, salt': string)
    returns (writes: seq<Bytes>, ghost mark: Mark)
    requires IsDigest(hash) && stored != [] && shared != ""
    requires hash(shared, salt) != hash(shared, salt') && hash(shared, salt) != stored
    ensures writes == [hash(shared, salt)] && mark == Mark(SharedBook, salt, false)
  {
    var handler := new LoginConfigHandler(hash, stored, Some(shared), NO_TOKEN, NO_MARK);
    handler.HandleHash(HashReceived(salt, false, "", [], ""));
    handler.HandleHash(HashReceived(salt', false, "", [], ""));
    var written := handler.HandlePeerInfo(stored);
    writes, mark := [written.value], handler.mark;
  }

  method SharedPasswordEscapesOnSwitch(hash: Digest, stored: Bytes, shared: string, salt: string)
    returns (writes: seq<Bytes>, ghost mark: Mark)
    requires IsDigest(hash) && stored != [] && shared != "" && hash(shared, salt) != stored
    ensures writes == [hash(shared, salt)] && mark == Mark(SharedBook, salt, true)
  {
    var handler := new LoginConfigHandler(hash, stored, Some(shared), NO_TOKEN, NO_MARK);
    handler.HandleHash(HashReceived(salt, false, "", [], ""));
    handler.HandleHash(HashReceived(salt, true, "", [], ""));
    var written := handler.HandlePeerInfo(stored);
    writes, mark := [written.value], handler.mark;
  }
}
