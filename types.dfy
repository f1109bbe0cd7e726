/** The records of types.ts: a proposal (a service quote), its line items and the screen being shown. */
module Types {

  datatype Option<+T> = None | Some(value: T)

  /** One line of a quote. `total` is stored, and the edit rules keep it equal to qty * unit. */
  datatype ProposalItem = ProposalItem(id: string, desc: string, qty: real, unit: real, total: real)

  datatype Proposal = Proposal(
    id: string,
    number: string,
    date: string,
    client: string,
    contact: string,
    phone: string,
    address: string,
    items: seq<ProposalItem>,
    delivery: string,
    payment: string,
    createdAt: int)

  datatype ViewState = Dashboard | Form | Preview
}
