/** Requests and responses as the database server holds them. */
module Protocol {
  import opened Common
  import opened Errors

  datatype Request =
    | MagicRequest
    | AddAccountRequest(walId: u64, credits: u128, debits: u128, flags: u8)
    | MakeTransferRequest(walId: u64, fromId: u64, toId: u64, amount: u128)
    | GetAccountRequest(accountId: u64)
    | CountDatabaseRequest
    | UpdateAccountRequest(walId: u64, accountId: u64, flags: u8)
    | CloseRequest

  datatype Response =
    | MagicResponse
    | AddAccountResponse(accountId: u64)
    | GetAccountResponse(credits: u128, debits: u128, flags: u8)
    | CountDatabaseResponse(accounts: u64, entries: u64)
    | OkResponse
    | ErrorResponse(error: Error)
}
