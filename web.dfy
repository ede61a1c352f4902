/**
 The web handlers that change state (app.py): create, select and log out a
 player, and open a lootbox.  The session is the "player" entry of the Flask
 session; templates, flash messages and redirects become response values.
 */
module Web {
  import opened Values
  import opened Catalog
  import opened Store

  datatype Verb = Get | Post

  datatype CreateResponse = CreateForm | NameRequired | Created(name: string) | AlreadyExists

  datatype SelectResponse = PlayerNotFound | PlayerSelected

  datatype OpenResponse =
    | LootboxNotFound
    | NoPlayerSelected
    | PlayerLoadFailed
    | ConfirmPage(boxName: string, cost: int)
    | NotEnoughCoins
    | ResultPage(prize: Option<string>, player: string, balance: int)

  /** The text f"{name}" gives for a form value; a missing field is None, which formats as "None". */
  function FormText(name: Option<string>): string {
    if name.Some? then name.value else "None"
  }

  /** The Flask application: the player store and the session's current player. */
  class WebApp {
    const store: PlayerStore
    var session: Option<string>

    constructor (store: PlayerStore)
      ensures this.store == store && session == None
    {
      this.store := store;
      session := None;
    }

    /**
     The create_player route: a POST with a non-empty name creates the player
     with the default balance and selects it; a duplicate changes nothing.
     */
    method CreatePlayerRoute(verb: Verb, name: Option<string>) returns (resp: CreateResponse)
      modifies this, store
      ensures verb == Get ==> resp == CreateForm
      ensures verb == Post && !Truthy(name) ==> resp == NameRequired
      ensures verb == Post && Truthy(name) && FilePath(name.value) in old(store.files) ==> resp == AlreadyExists
      ensures verb == Post && Truthy(name) && FilePath(name.value) !in old(store.files) ==>
        resp == Created(name.value) && session == name
        && store.files == Save(old(store.files), name.value, NewRecord(name.value, DefaultStartingBalance))
      ensures !resp.Created? ==> session == old(session) && store.files == old(store.files)
    {
      if verb == Get {
        return CreateForm;
      }
      if !Truthy(name) {
        return NameRequired;
      }
      var ok := store.CreatePlayer(name.value);
      if ok {
        session := name;
        return Created(name.value);
      }
      return AlreadyExists;
    }

    /** The select_player route: select the named player if its record can be loaded. */
    method SelectPlayer(name: Option<string>) returns (resp: SelectResponse)
      modifies this
      ensures resp == PlayerSelected <==> Load(store.files, FormText(name)).Some?
      ensures session == if resp == PlayerSelected then name else old(session)
    {
      var pdata := store.LoadPlayer(FormText(name));
      if pdata.None? {
        return PlayerNotFound;
      }
      session := name;
      return PlayerSelected;
    }

    /** The logout route. */
    method Logout()
      modifies this
      ensures session == None
    {
      session := None;
    }

    /**
     The open_box route: look the box up, then the session's player, then
     load the record; a GET shows the confirmation and a POST purchases.
     */
    method OpenBox(boxes: map<string, Lootbox>, boxName: string, verb: Verb, r: real) returns (resp: OpenResponse)
      requires 0.0 <= r < 1.0
      modifies store
      ensures boxName !in boxes ==> resp == LootboxNotFound
      ensures boxName in boxes && !Truthy(session) ==> resp == NoPlayerSelected
      ensures boxName in boxes && Truthy(session) && Load(old(store.files), session.value).None? ==>
        resp == PlayerLoadFailed
      ensures boxName in boxes && Truthy(session) && Load(old(store.files), session.value).Some? ==>
        var pdata := Load(old(store.files), session.value).value;
        if verb == Get then resp == ConfirmPage(boxName, boxes[boxName].cost)
        else match Buy(pdata, boxes[boxName], r)
          case NotEnoughCoins => resp == OpenResponse.NotEnoughCoins
          case Opened(rec, prize) =>
            resp == ResultPage(prize, session.value, rec.balance)
            && store.files == Save(old(store.files), session.value, rec)
      ensures !resp.ResultPage? ==> store.files == old(store.files)
    {
      if boxName !in boxes {
        return LootboxNotFound;
      }
      var box := boxes[boxName];
      if !Truthy(session) {
        return NoPlayerSelected;
      }
      var player := session.value;
      var pdata := store.LoadPlayer(player);
      if pdata.None? {
        return PlayerLoadFailed;
      }
      if verb == Post {
        var outcome := store.Purchase(player, pdata.value, box, r);
        if outcome.NotEnoughCoins? {
          return OpenResponse.NotEnoughCoins;
        }
        return ResultPage(outcome.prize, player, outcome.record.balance);
      }
      return ConfirmPage(boxName, box.cost);
    }
  }
}
