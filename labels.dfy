/** The panel's display helpers: the player name shown for an id, and the
    Spanish labels for transaction statuses and bet outcomes. */
module Labels {
  import opened Common
  import opened Records

  /** The labels shown for the three transaction statuses. */
  const StatusLabel: map<string, string> :=
    map["success" := "Éxito", "pending" := "Pendiente", "rejected" := "Rechazado"]

  /** The labels shown for the three bet outcomes. */
  const OutcomeLabel: map<string, string> :=
    map["win" := "Ganó", "lose" := "Perdió", "open" := "Abierta"]

  /** `formatStatus`: a known status shows its label, anything else is shown
      as it came; so the text changes exactly when the status is known. */
  function FormatStatus(status: string): (shown: string)
    ensures status in StatusLabel ==> shown == StatusLabel[status]
    ensures shown == status <==> status !in StatusLabel
  {
    match status
    case "success" => "Éxito"
    case "pending" => "Pendiente"
    case "rejected" => "Rechazado"
    case _ => status
  }

  /** `formatOutcome`: a known outcome shows its label, anything else is
      shown as it came. */
  function FormatOutcome(outcome: string): (shown: string)
    ensures outcome in OutcomeLabel ==> shown == OutcomeLabel[outcome]
    ensures shown == outcome <==> outcome !in OutcomeLabel
  {
    match outcome
    case "win" => "Ganó"
    case "lose" => "Perdió"
    case "open" => "Abierta"
    case _ => outcome
  }

  /** `Array.prototype.find` by id: the index of the first player with `id`. */
  function FirstWithId(players: seq<Player>, id: string): (k: Option<nat>)
    ensures k.Some? ==> k.value < |players| && players[k.value].id == id
    ensures k.Some? ==> forall j :: 0 <= j < k.value ==> players[j].id != id
    ensures k.None? ==> forall j :: 0 <= j < |players| ==> players[j].id != id
  {
    if players == [] then None
    else if players[0].id == id then Some(0)
    else match FirstWithId(players[1..], id)
      case None => None
      case Some(j) => Some(j + 1)
  }

  /** `findPlayerName`: with no cache loaded yet the id itself is shown;
      otherwise the name of the first cached player with that id, or the id
      when none has it. */
  function FindPlayerName(cache: Option<seq<Player>>, id: string): (name: string)
    ensures cache.None? ==> name == id
    ensures cache.Some? && (forall j :: 0 <= j < |cache.value| ==> cache.value[j].id != id) ==> name == id
    ensures cache.Some? ==>
      forall k :: (0 <= k < |cache.value| && cache.value[k].id == id &&
                   forall j :: 0 <= j < k ==> cache.value[j].id != id) ==> name == cache.value[k].name
  {
    match cache
    case None => id
    case Some(players) =>
      match FirstWithId(players, id)
      case None => id
      case Some(k) => players[k].name
  }
}
