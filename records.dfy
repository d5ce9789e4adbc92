/**
  The documents of the expense-sharing store, as the request handlers see them,
  and the outcomes of a request.

  Ids are document ids; the server compares them through their string form and
  the client with `===` on the JSON strings, so an id is a string here.
  Money amounts are JavaScript numbers; they are only copied and compared by
  the handlers, so they are exact reals in this model.
 */
module Records {

  type Id = string

  /** One entry of a group's member list: the user's id plus copies of the
      user's name and email taken when the member was added. */
  datatype Member = Member(user: Id, name: string, email: string)

  /** A group document: its member list, the ids of its expenses in the order
      they were added, and the id of the user who created it. */
  datatype Group = Group(
    name: string,
    description: string,
    members: seq<Member>,
    expenses: seq<Id>,
    createdBy: Id)

  /** A user document, reduced to what the handlers touch: name, the unique
      email, and the ids of the groups the user belongs to. */
  datatype User = User(name: string, email: string, groups: seq<Id>)

  /** Who paid an expense: the payer's id and a copy of the payer's name. */
  datatype Payer = Payer(user: Id, name: string)

  /** One participant's share of an expense. */
  datatype Split = Split(user: Id, name: string, amount: real, settled: bool)

  /** A share as the client submits it with a new expense. */
  datatype SplitRequest = SplitRequest(userId: Id, name: string, amount: real)

  /** An expense document. */
  datatype Expense = Expense(
    description: string,
    amount: real,
    paidBy: Payer,
    splitAmong: seq<Split>,
    group: Id,
    category: string)

  /** Why a request was refused. Each failure is answered with one HTTP status. */
  datatype Failure =
    | GroupNotFound
    | UserNotFound
    | ExpenseNotFound
    | NotAuthorized          // 403, the caller is not allowed to do this
    | PayerCannotSettle      // 403, the payer tried to settle their own expense
    | AlreadyMember          // 400
    | ServerError            // 500, a handler dereferenced a missing user

  function Status(f: Failure): (code: int)
    ensures code == 404 <==> f in {GroupNotFound, UserNotFound, ExpenseNotFound}
    ensures code == 403 <==> f in {NotAuthorized, PayerCannotSettle}
    ensures code == 400 <==> f == AlreadyMember
    ensures code == 500 <==> f == ServerError
  {
    match f
    case GroupNotFound | UserNotFound | ExpenseNotFound => 404
    case NotAuthorized | PayerCannotSettle => 403
    case AlreadyMember => 400
    case ServerError => 500
  }

  /** The answer to a request that returns a document on success. */
  datatype Result<T> = Ok(value: T) | Err(failure: Failure)

  /** The answer to a request that returns only a confirmation message. */
  datatype Outcome = Done | Refused(failure: Failure)

  datatype Option<T> = None | Some(value: T)
}
