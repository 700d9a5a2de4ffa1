/** The records the admin panel receives from the API, with the fields the
    panel's logic reads. Identifiers are strings. */
module Records {
  import opened Common

  datatype Player = Player(id: string, agentId: string, name: string, email: string,
                           phone: string, level: string, balance: real)

  /** A bet carries its own copy of the owning agent's id; `payout` is null
      while the bet is open. */
  datatype Bet = Bet(id: string, playerId: string, agentId: string, sport: string,
                     stake: real, odds: real, outcome: string, payout: Option<real>)
}
