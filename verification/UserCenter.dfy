/** Which game server a player belongs to: logins, heartbeats, leave notices and timeouts. */
module UserCenter {
  import opened Basics

  /** The record of a player: the owning server, 0 for none, and whether the timeout ticker is registered. */
  datatype Record = Record(gas: nat, armed: bool)

  type Users = map<nat, Record>

  datatype Event =
    | Login(player: nat, gas: nat)
    | Heartbeat(player: nat, from: nat)
    | Leave(player: nat)
    | Timeout(player: nat)

  /** What a handler sends: the server a login is answered with, or a kick to the sender of a heartbeat. */
  datatype Reply = Nothing | Answer(gas: nat) | Kick

  /** A ticker only fires while it is registered. */
  predicate Enabled(u: Users, e: Event) {
    e.Timeout? ==> e.player in u && u[e.player].armed
  }

  function Step(u: Users, e: Event): Users {
    var p := e.player;
    match e
    case Login(_, gas) => if p !in u || u[p].gas == 0 then u[p := Record(gas, true)] else u
    case Heartbeat(_, from) =>
      if p !in u then u
      else if u[p].gas != from then u[p := u[p].(gas := 0)]
      else u[p := u[p].(armed := false)]
    case Leave(_) => if p !in u then u else u[p := u[p].(gas := 0)]
    case Timeout(_) => u - {p}
  }

  function ReplyTo(u: Users, e: Event): Reply {
    var p := e.player;
    match e
    case Login(_, gas) => Answer(if p !in u || u[p].gas == 0 then gas else u[p].gas)
    case Heartbeat(_, from) => if p !in u || u[p].gas != from then Kick else Nothing
    case _ => Nothing
  }

  function StateAt(events: seq<Event>, k: nat): Users
    requires k <= |events|
  {
    if k == 0 then map[] else Step(StateAt(events, k - 1), events[k - 1])
  }

  predicate EnabledAt(events: seq<Event>, k: nat)
    requires k < |events|
  {
    Enabled(StateAt(events, k), events[k])
  }

  ghost predicate Legal(events: seq<Event>) {
    forall k | 0 <= k < |events| :: EnabledAt(events, k)
  }

  /** Servers that log players in have nonzero ids. */
  ghost predicate RealServers(events: seq<Event>) {
    forall k | 0 <= k < |events| && events[k].Login? :: events[k].gas != 0
  }

  predicate IsLogin(e: Event, p: nat) { e.Login? && e.player == p }

  predicate IsOwnHeartbeat(e: Event, p: nat, owner: nat) { e.Heartbeat? && e.player == p && e.from == owner }

  /** What takes a player away from server g. */
  predicate Releases(e: Event, p: nat, g: nat) {
    e.player == p && (e.Leave? || e.Timeout? || (e.Heartbeat? && e.from != g))
  }

  function AnswerAt(events: seq<Event>, k: nat): (g: nat)
    requires k < |events| && events[k].Login?
  {
    ReplyTo(StateAt(events, k), events[k]).gas
  }

  predicate Owns(u: Users, p: nat, g: nat) { p in u && u[p].gas == g }

  predicate Unowned(u: Users, p: nat) { p !in u || u[p].gas == 0 }

  /** A login is answered with the owner there is, or else makes its own server the owner. */
  lemma LoginOwns(events: seq<Event>, k: nat)
    requires RealServers(events) && k < |events| && events[k].Login?
    ensures AnswerAt(events, k) != 0 && Owns(StateAt(events, k + 1), events[k].player, AnswerAt(events, k))
    ensures AnswerAt(events, k) == if Unowned(StateAt(events, k), events[k].player) then events[k].gas else StateAt(events, k)[events[k].player].gas
  {
  }

  ghost predicate ReleasedBetween(events: seq<Event>, i: nat, k: nat, p: nat, g: nat)
    requires k <= |events|
  {
    exists j :: i < j < k && Releases(events[j], p, g)
  }

  lemma OwnershipLasts(u: Users, e: Event, p: nat, g: nat)
    requires g != 0 && Owns(u, p, g) && !Releases(e, p, g)
    ensures Owns(Step(u, e), p, g)
  {
  }

  lemma ReleaseFrees(u: Users, e: Event, p: nat, g: nat)
    requires g != 0 && Owns(u, p, g) && Releases(e, p, g)
    ensures Unowned(Step(u, e), p)
  {
  }

  lemma UnownedLasts(u: Users, e: Event, p: nat)
    requires Unowned(u, p) && !IsLogin(e, p)
    ensures Unowned(Step(u, e), p)
  {
  }

  /** Until it is released the player stays with the server that answered. */
  lemma {:induction false} StaysOwned(events: seq<Event>, i: nat, k: nat)
    requires RealServers(events) && i < k <= |events| && events[i].Login?
    requires !ReleasedBetween(events, i, k, events[i].player, AnswerAt(events, i))
    ensures Owns(StateAt(events, k), events[i].player, AnswerAt(events, i))
  {
    var p, g := events[i].player, AnswerAt(events, i);
    LoginOwns(events, i);
    if k > i + 1 {
      assert !Releases(events[k - 1], p, g);
      StaysOwned(events, i, k - 1);
      OwnershipLasts(StateAt(events, k - 1), events[k - 1], p, g);
    }
  }

  /** If two logins of a player are answered with different servers, then in between the player left, timed out,
      or another server than the first sent a heartbeat for it. */
  lemma Sticky(events: seq<Event>, i: nat, k: nat)
    requires RealServers(events) && i < k < |events| && events[i].Login? && IsLogin(events[k], events[i].player)
    requires AnswerAt(events, i) != AnswerAt(events, k)
    ensures ReleasedBetween(events, i, k, events[i].player, AnswerAt(events, i))
  {
    if !ReleasedBetween(events, i, k, events[i].player, AnswerAt(events, i)) {
      StaysOwned(events, i, k);
      LoginOwns(events, i);
    }
  }

  lemma {:induction false} StaysUnowned(events: seq<Event>, j: nat, k: nat, p: nat)
    requires j <= k <= |events| && Unowned(StateAt(events, j), p)
    requires forall l | j <= l < k :: !IsLogin(events[l], p)
    ensures Unowned(StateAt(events, k), p)
  {
    if k > j {
      StaysUnowned(events, j, k - 1, p);
      UnownedLasts(StateAt(events, k - 1), events[k - 1], p);
    }
  }

  /** The first release after a login. */
  lemma {:induction false} FirstRelease(events: seq<Event>, i: nat, k: nat, p: nat, g: nat) returns (j: nat)
    requires k <= |events| && ReleasedBetween(events, i, k, p, g)
    ensures i < j < k && Releases(events[j], p, g) && !ReleasedBetween(events, i, j, p, g)
  {
    j :| i < j < k && Releases(events[j], p, g);
    if ReleasedBetween(events, i, j, p, g) {
      j := FirstRelease(events, i, j, p, g);
    }
  }

  /** The answer to the next login of a player, exactly: the server it asks for if the player was released since,
      or else the server that answered before. */
  lemma NextAnswer(events: seq<Event>, i: nat, k: nat)
    requires RealServers(events) && i < k < |events| && events[i].Login? && IsLogin(events[k], events[i].player)
    requires forall l | i < l < k :: !IsLogin(events[l], events[i].player)
    ensures var g := AnswerAt(events, i);
            AnswerAt(events, k) == if ReleasedBetween(events, i, k, events[i].player, g) then events[k].gas else g
  {
    var p, g := events[i].player, AnswerAt(events, i);
    LoginOwns(events, i);
    LoginOwns(events, k);
    if ReleasedBetween(events, i, k, p, g) {
      var j := FirstRelease(events, i, k, p, g);
      StaysOwned(events, i, j);
      ReleaseFrees(StateAt(events, j), events[j], p, g);
      StaysUnowned(events, j + 1, k, p);
    } else {
      StaysOwned(events, i, k);
    }
  }

  /** A heartbeat kicks its sender exactly when the record is absent or owned by another. */
  lemma KickIff(u: Users, p: nat, from: nat)
    ensures ReplyTo(u, Heartbeat(p, from)) == Kick <==> !Owns(u, p, from)
    ensures ReplyTo(u, Heartbeat(p, from)) == Kick && from != 0 ==> Unowned(Step(u, Heartbeat(p, from)), p)
  {
  }

  /** The event that registered the ticker: a login that found no owner. */
  predicate StartsTimer(u: Users, e: Event, p: nat) { IsLogin(e, p) && Unowned(u, p) }

  predicate StartsTimerAt(events: seq<Event>, k: nat, p: nat)
    requires k < |events|
  {
    StartsTimer(StateAt(events, k), events[k], p)
  }

  ghost predicate ArmedSince(events: seq<Event>, i: nat, k: nat, p: nat)
    requires i < k <= |events|
  {
    && StartsTimerAt(events, i, p)
    && forall j | i < j < k ::
         && p in StateAt(events, j)
         && !IsOwnHeartbeat(events[j], p, StateAt(events, j)[p].gas)
         && !StartsTimerAt(events, j, p)
         && !(events[j].Timeout? && events[j].player == p)
  }

  lemma {:induction false} ArmedMeansStarted(events: seq<Event>, k: nat, p: nat) returns (i: nat)
    requires k <= |events| && p in StateAt(events, k) && StateAt(events, k)[p].armed
    ensures i < k && ArmedSince(events, i, k, p)
  {
    var u, e := StateAt(events, k - 1), events[k - 1];
    if StartsTimer(u, e, p) {
      i := k - 1;
    } else {
      assert p in u && u[p].armed && !IsOwnHeartbeat(e, p, u[p].gas);
      i := ArmedMeansStarted(events, k - 1, p);
    }
  }

  /** A timeout means that since the timer was started, at a login that made its server the owner, no heartbeat
      has come from the owner of the moment. */
  lemma TimeoutMeansSilence(events: seq<Event>, k: nat) returns (i: nat)
    requires Legal(events) && k < |events| && events[k].Timeout?
    ensures i < k && ArmedSince(events, i, k, events[k].player)
  {
    assert EnabledAt(events, k);
    i := ArmedMeansStarted(events, k, events[k].player);
  }

  lemma {:induction false} StartedMeansArmed(events: seq<Event>, i: nat, k: nat, p: nat)
    requires i < k <= |events| && ArmedSince(events, i, k, p)
    ensures p in StateAt(events, k) && StateAt(events, k)[p].armed
  {
    if k > i + 1 {
      StartedMeansArmed(events, i, k - 1, p);
    }
  }

  /** A player can time out exactly when a login that found no owner started its timer and since then neither the
      owner of the moment has sent a heartbeat nor the player has timed out. */
  lemma TimeoutIff(events: seq<Event>, k: nat, p: nat)
    requires k <= |events|
    ensures Enabled(StateAt(events, k), Timeout(p)) <==> exists i: nat :: i < k && ArmedSince(events, i, k, p)
  {
    if Enabled(StateAt(events, k), Timeout(p)) {
      var i := ArmedMeansStarted(events, k, p);
    }
    forall i: nat | i < k && ArmedSince(events, i, k, p) ensures Enabled(StateAt(events, k), Timeout(p)) {
      StartedMeansArmed(events, i, k, p);
    }
  }

  /** After a heartbeat of the owner, the record cannot time out until a login starts the timer again. */
  lemma {:induction false} HeartbeatDisarms(events: seq<Event>, j: nat, k: nat, p: nat)
    requires j < k <= |events| && p in StateAt(events, j) && IsOwnHeartbeat(events[j], p, StateAt(events, j)[p].gas)
    requires forall l | j < l < k :: !StartsTimerAt(events, l, p)
    requires Legal(events)
    ensures Disarmed(StateAt(events, k), p)
    ensures k < |events| ==> !(events[k].Timeout? && events[k].player == p)
  {
    if k == j + 1 {
      HeartbeatStops(StateAt(events, j), events[j], p);
    } else {
      HeartbeatDisarms(events, j, k - 1, p);
      assert EnabledAt(events, k - 1) && !StartsTimerAt(events, k - 1, p);
      DisarmedLasts(StateAt(events, k - 1), events[k - 1], p);
    }
    assert k < |events| ==> EnabledAt(events, k);
  }

  predicate Disarmed(u: Users, p: nat) { p in u && !u[p].armed }

  lemma HeartbeatStops(u: Users, e: Event, p: nat)
    requires p in u && IsOwnHeartbeat(e, p, u[p].gas)
    ensures Disarmed(Step(u, e), p)
  {
  }

  lemma DisarmedLasts(u: Users, e: Event, p: nat)
    requires Disarmed(u, p) && Enabled(u, e) && !StartsTimer(u, e, p)
    ensures Disarmed(Step(u, e), p)
  {
  }

  // ----- the objects

  class CUserInfo {
    const playerId: nat
    var gasId: nat
    var armed: bool

    constructor (playerId: nat, gasId: nat)
      ensures this.playerId == playerId && this.gasId == gasId && !armed
    {
      this.playerId, this.gasId, this.armed := playerId, gasId, false;
    }

    function Value(): Record
      reads this
    {
      Record(gasId, armed)
    }

    method StartTimeout()
      modifies this`armed
      ensures armed
    {
      if armed {
        armed := false;
      }
      armed := true;
    }

    method OnHeartbeat()
      modifies this`armed
      ensures !armed
    {
      if armed {
        armed := false;
      }
    }
  }

  class CUserInfoMgr {
    var users: map<nat, CUserInfo>

    /** Every record is filed under its own player, so no object is filed twice. */
    ghost predicate Valid()
      reads this, users.Values
    {
      forall p | p in users :: users[p].playerId == p
    }

    ghost function Value(): Users
      reads this, users.Values
    {
      map p | p in users :: users[p].Value()
    }

    constructor ()
      ensures Valid() && Value() == map[] && users == map[]
    {
      users := map[];
    }

    function GetUserInfo(player: nat): (r: Option<CUserInfo>)
      reads this
      ensures r.Some? <==> player in users
    {
      if player in users then Some(users[player]) else None
    }

    method CreateUserInfo(player: nat, gas: nat) returns (r: Option<CUserInfo>)
      requires Valid()
      modifies this
      ensures Valid() && (r.None? <==> player in old(users))
      ensures r.None? ==> users == old(users)
      ensures r.Some? ==> fresh(r.value) && users == old(users)[player := r.value] && r.value.Value() == Record(gas, false)
    {
      if player in users {
        return None;
      }
      var user := new CUserInfo(player, gas);
      users := users[player := user];
      r := Some(user);
    }

    method DestroyUserInfo(player: nat)
      requires Valid()
      modifies this
      ensures Valid() && Value() == old(Value()) - {player} && users == old(users) - {player}
    {
      if player !in users {
        return;
      }
      users := users - {player};
    }

    method OnLogin(player: nat, gas: nat) returns (answer: nat)
      requires Valid()
      modifies this, users.Values
      ensures Valid() && fresh(users.Values - old(users.Values))
      ensures Value() == Step(old(Value()), Login(player, gas))
      ensures Answer(answer) == ReplyTo(old(Value()), Login(player, gas))
    {
      var found := GetUserInfo(player);
      if found.None? {
        var created := CreateUserInfo(player, gas);
        created.value.StartTimeout();
        answer := created.value.gasId;
      } else {
        if found.value.gasId == 0 {
          found.value.gasId := gas;
          found.value.StartTimeout();
        }
        answer := found.value.gasId;
      }
    }

    method OnHeartbeat(player: nat, from: nat) returns (kick: bool)
      requires Valid()
      modifies users.Values
      ensures Valid()
      ensures Value() == Step(old(Value()), Heartbeat(player, from))
      ensures kick <==> ReplyTo(old(Value()), Heartbeat(player, from)) == Kick
    {
      var found := GetUserInfo(player);
      if found.None? {
        return true;
      }
      if found.value.gasId != from {
        found.value.gasId := 0;
        return true;
      }
      found.value.OnHeartbeat();
      kick := false;
    }

    method OnLeave(player: nat)
      requires Valid()
      modifies users.Values
      ensures Valid()
      ensures Value() == Step(old(Value()), Leave(player))
    {
      var found := GetUserInfo(player);
      if found.None? {
        return;
      }
      found.value.gasId := 0;
    }

    method OnTimeout(player: nat)
      requires Valid() && Enabled(Value(), Timeout(player))
      modifies this
      ensures Valid()
      ensures Value() == Step(old(Value()), Timeout(player))
    {
      DestroyUserInfo(player);
    }
  }
}
