/** The in-memory account list, the state machine over it, and the guard in front of it. */
module Accounts {
  import opened Common
  import opened Errors
  import opened Ledger

  const BLANK := Account(0, 0, 0, 0, 0, 0)

  /** A growable array of accounts. */
  class AccountList {
    var accounts: array<Account>
    var capacity: u64
    var length: u64

    ghost predicate Valid()
      reads this
    {
      && accounts.Length == capacity == CapacityFor(length)
    }

    ghost function Contents(): seq<Account>
      reads this, accounts
      requires Valid()
    {
      accounts[..length]
    }

    constructor ()
      ensures Valid() && fresh(accounts) && Contents() == [] && capacity == CAPACITY_DEFAULT
    {
      capacity := CAPACITY_DEFAULT;
      length := 0;
      accounts := new Account[CAPACITY_DEFAULT](_ => BLANK);
    }

    /** Why one more account cannot be added: doubling overflows, or memory is out. */
    ghost function AddError(allocates: bool): Error
      reads this
    {
      if !Full(length) then NoError
      else if 2 * length >= U64_SIZE then AccountFault(CapacityOverflow)
      else if !allocates then AccountFault(OutOfMemory)
      else NoError
    }

    /** Appends an account; `allocates` says whether a reallocation, if one is needed, succeeds. */
    method Add(account: Account, allocates: bool) returns (error: Error)
      requires Valid()
      modifies this, accounts
      ensures Valid() && (accounts == old(accounts) || fresh(accounts))
      ensures error == old(AddError(allocates))
      ensures error.Exists() ==> Contents() == old(Contents())
      ensures !error.Exists() ==> Contents() == old(Contents()) + [account]
    {
      hide CapacityFor;
      CapacityGrows(length);
      if length >= capacity {
        var newCapacity := capacity * 2;
        if newCapacity >= U64_SIZE {
          return AccountFault(CapacityOverflow);
        }
        if !allocates {
          return AccountFault(OutOfMemory);
        }
        var grown := new Account[newCapacity](_ => BLANK);
        forall i | 0 <= i < length {
          grown[i] := accounts[i];
        }
        capacity := newCapacity;
        accounts := grown;
        assert accounts[..length] == old(accounts[..length]);
      }
      accounts[length] := account;
      length := length + 1;
      return NoError;
    }

    method Get(id: u64) returns (account: Result<Account, Error>)
      requires Valid()
      ensures account == if id < |Contents()| then Ok(Contents()[id]) else Err(AccountFault(NotFound))
    {
      if id >= length {
        return Err(AccountFault(NotFound));
      }
      return Ok(accounts[id]);
    }

    /** Overwrites the flags of an account. The id is not checked: callers must know it exists. */
    method Update(id: u64, flags: u8)
      requires Valid() && id < |Contents()|
      modifies accounts
      ensures Valid() && Contents() == old(Contents())[id := old(Contents())[id].(flags := flags)]
    {
      accounts[id] := accounts[id].(flags := flags);
    }
  }

  /** The state machine. Ids are not checked here either: the guard does that before a request is logged. */
  class State {
    const list: AccountList

    constructor (list: AccountList)
      ensures this.list == list
    {
      this.list := list;
    }

    method AddAccount(account: Account, allocates: bool) returns (error: Error, id: u64)
      requires list.Valid()
      modifies list, list.accounts
      ensures list.Valid() && (list.accounts == old(list.accounts) || fresh(list.accounts))
      ensures error == old(list.AddError(allocates))
      ensures error.Exists() ==> list.Contents() == old(list.Contents())
      ensures !error.Exists() ==> list.Contents() == old(list.Contents()) + [account] && id == |old(list.Contents())|
    {
      id := list.length;
      error := list.Add(account, allocates);
    }

    /** Moves an amount; `now` is what the clock returned, -1 when it failed. */
    method MakeTransfer(fromId: u64, toId: u64, amount: u128, now: i64) returns (error: Error)
      requires list.Valid()
      requires fromId < |list.Contents()| && toId < |list.Contents()|
      modifies list.accounts
      ensures list.Valid()
      ensures error == if now == -1 then StateFault(InvalidTime) else NoError
      ensures list.Contents() == if now == -1 then old(list.Contents())
                                 else Transferred(old(list.Contents()), fromId, toId, amount, now)
    {
      if now == -1 {
        return StateFault(InvalidTime);
      }
      var accounts := list.accounts;
      accounts[fromId] := accounts[fromId].(credits := (accounts[fromId].credits + amount) % U128_SIZE);
      accounts[toId] := accounts[toId].(debits := (accounts[toId].debits + amount) % U128_SIZE);

      accounts[fromId] := accounts[fromId].(transactions := (accounts[fromId].transactions + 1) % U64_SIZE);
      accounts[toId] := accounts[toId].(transactions := (accounts[toId].transactions + 1) % U64_SIZE);

      accounts[fromId] := accounts[fromId].(updatedAt := now);
      accounts[toId] := accounts[toId].(updatedAt := now);
      return NoError;
    }

    method UpdateAccount(id: u64, flags: u8)
      requires list.Valid() && id < |list.Contents()|
      modifies list.accounts
      ensures list.Valid() && list.Contents() == old(list.Contents())[id := old(list.Contents())[id].(flags := flags)]
    {
      list.Update(id, flags);
    }
  }

  /** Checks a request against the current accounts without changing anything. */
  class GuardKeeper {
    const state: State

    constructor (state: State)
      ensures this.state == state
    {
      this.state := state;
    }

    method MakeTransfer(fromId: u64, toId: u64, amount: u128) returns (error: Error)
      requires state.list.Valid()
      ensures error == GuardTransfer(state.list.Contents(), fromId, toId, amount)
    {
      if amount == 0 {
        return GuardFault(ZeroBalance);
      }
      if fromId == toId {
        return GuardFault(SameAccount);
      }
      var count := state.list.length;
      if fromId >= count {
        return GuardFault(SenderNotFound);
      }
      if toId >= count {
        return GuardFault(RecipientNotFound);
      }
      var from, to := state.list.accounts[fromId], state.list.accounts[toId];
      if !CanSend(from.flags) {
        return GuardFault(CannotSend);
      }
      if !CanReceive(to.flags) {
        return GuardFault(CannotReceive);
      }
      if !CanDebt(from.flags) {
        if U128_MAX - from.credits < amount {
          return GuardFault(InsufficientBalance);
        }
        var needed: u128 := amount + from.credits; // in range: the sum was just checked
        if from.debits < needed {
          return GuardFault(InsufficientBalance);
        }
      }
      if from.transactions == U64_MAX || to.transactions == U64_MAX {
        return GuardFault(TransactionOverflow);
      }
      return NoError;
    }

    method UpdateAccount(id: u64) returns (error: Error)
      requires state.list.Valid()
      ensures error == GuardUpdate(state.list.Contents(), id)
    {
      if id >= state.list.length {
        return AccountFault(NotFound);
      }
      return NoError;
    }
  }
}
