/** The database as the services change it, row by row, and the writes they all make through it. */
module Backend {
  import opened Wrappers
  import opened RowLocks
  import opened Recipes
  import opened Shop
  import Stock = StockLedger
  import Money = MoneyLedger

  /** The request has done what its recipe says. */
  ghost predicate Does(c: ShopRecipe, before: Database, after: Database, answer: Answer) {
    (after, answer) == Effect(c, before)
  }

  /** How the recipe ends without writing, if it does. */
  function Ends(c: ShopRecipe, db: Database): Option<Answer> {
    if RefusedOutright(c) then c.fault
    else if c.claim.Some? && c.claim.value in db then Some(c.replay(db[c.claim.value]))
    else if c.fault.Some? then c.fault
    else c.check(Snapshot(Keys(c), db))
  }

  /** What it leaves and answers, once nothing has ended it. */
  function Leaves(c: ShopRecipe, db: Database): (Database, Answer) {
    var (writes, answer) := c.write(Snapshot(Keys(c), db));
    (db + if c.claim.Some? then writes[c.claim.value := c.record(answer)] else writes, answer)
  }

  lemma DoesEither(c: ShopRecipe, db: Database)
    ensures Effect(c, db) == if Ends(c, db).Some? then (db, Ends(c, db).value) else Leaves(c, db)
  {
  }

  /** Locked otherwise, it ends and leaves the rows as it does. */
  lemma LockingIsSame(c: ShopRecipe, after: seq<Key>, db: Database)
    requires forall k :: k in c.after ==> k in after
    ensures Ends(Locking(c, after), db) == Ends(c, db) && Leaves(Locking(c, after), db) == Leaves(c, db)
  {
    LockingReads(c, after, db);
  }

  /** What the key was claimed for, if it was. */
  function Found(claim: Option<Key>, db: Database): Option<Answer> {
    if claim.Some? && claim.value in db then Some(Retold(db[claim.value])) else None
  }

  /** The rows with the key claimed, if there is one. */
  function Claiming(rows: Database, claim: Option<Key>, document: Document): Database {
    if claim.None? then rows else rows[claim.value := Claimed(document)]
  }

  lemma WrittenAgain(db: Database, k: Key, first: Row, second: Row)
    ensures db[k := first][k := second] == db[k := second]
  {
  }

  lemma SameRows(a: Database, b: Database)
    requires forall k :: Read(a, k) == Read(b, k)
    ensures a == b
  {
    forall k ensures k in a <==> k in b {
      assert Read(a, k) == Read(b, k);
    }
    forall k | k in a ensures a[k] == b[k] {
      assert Read(a, k) == Read(b, k);
    }
  }

  // ---- The rows locked ------------------------------------------------------------------

  /** The rows locked, with one more: a row locked again is locked no later. */
  function Noted(locked: seq<Key>, k: Key): (more: seq<Key>)
    ensures more != [] && (locked == [] ==> more == [k])
  {
    if k in locked then locked else locked + [k]
  }

  function NotedAll(locked: seq<Key>, keys: seq<Key>): (more: seq<Key>)
    ensures locked != [] ==> more != []
  {
    if keys == [] then locked else Noted(NotedAll(locked, keys[..|keys| - 1]), keys[|keys| - 1])
  }

  lemma {:induction false} NotedJoin(locked: seq<Key>, a: seq<Key>, b: seq<Key>)
    ensures NotedAll(locked, a + b) == NotedAll(NotedAll(locked, a), b)
  {
    if b == [] {
      assert a + b == a;
    } else {
      assert (a + b)[..|a + b| - 1] == a + b[..|b| - 1];
      NotedJoin(locked, a, b[..|b| - 1]);
    }
  }

  lemma NotedNext(locked: seq<Key>, done: seq<Key>, k: Key)
    ensures NotedAll(locked, done + [k]) == Noted(NotedAll(locked, done), k)
  {
    assert (done + [k])[..|done|] == done;
  }

  function KeySeq(claim: Option<Key>): seq<Key> {
    if claim.Some? then [claim.value] else []
  }

  /** The key locked too, if there is one. */
  function WithKey(locked: seq<Key>, claim: Option<Key>): (more: seq<Key>)
    ensures locked != [] ==> more != []
  {
    if claim.Some? then Noted(locked, claim.value) else locked
  }

  lemma NotedKey(done: seq<Key>, claim: Option<Key>)
    ensures NotedAll([], done + KeySeq(claim)) == WithKey(NotedAll([], done), claim)
  {
    if claim.Some? {
      NotedNext([], done, claim.value);
    } else {
      assert done + [] == done;
    }
  }

  lemma NotedFirst(k: Key)
    ensures NotedAll([], []) == [] && NotedAll([], [k]) == [k]
  {
    assert [k][..0] == [];
  }

  lemma NoneNoted(locked: seq<Key>)
    ensures NotedAll(locked, []) == locked
  {
  }

  /** What is locked already is not locked again. */
  lemma {:induction false} NotedAgain(locked: seq<Key>, keys: seq<Key>)
    requires forall k :: k in keys ==> k in locked
    ensures NotedAll(locked, keys) == locked
  {
    if keys != [] {
      assert keys[|keys| - 1] in keys;
      NotedAgain(locked, keys[..|keys| - 1]);
    }
  }

  lemma {:induction false} NotedHas(locked: seq<Key>, keys: seq<Key>, k: Key)
    ensures k in NotedAll(locked, keys) <==> k in locked || k in keys
  {
    if keys != [] {
      assert keys == keys[..|keys| - 1] + [keys[|keys| - 1]];
      NotedHas(locked, keys[..|keys| - 1], k);
    }
  }

  /** Locked in the order the recipe says, as far as it got. */
  ghost predicate InStep(locked: seq<Key>, c: ShopRecipe) {
    exists done: seq<Key> :: done <= InOrder(c) && locked == NotedAll([], done)
  }

  lemma StepsTaken(c: ShopRecipe, done: seq<Key>, rest: seq<Key>)
    requires InOrder(c) == done + rest
    ensures InStep(NotedAll([], done), c)
  {
    assert done <= InOrder(c);
  }

  /** Some of these locked, from the first. */
  ghost predicate PartNoted(before: seq<Key>, locked: seq<Key>, keys: seq<Key>) {
    exists part: seq<Key> :: part <= keys && locked == NotedAll(before, part)
  }

  lemma PartTaken(c: ShopRecipe, done: seq<Key>, locked: seq<Key>, keys: seq<Key>)
    requires done + keys <= InOrder(c) && PartNoted(NotedAll([], done), locked, keys)
    ensures InStep(locked, c)
  {
    var part: seq<Key> :| part <= keys && locked == NotedAll(NotedAll([], done), part);
    NotedJoin([], done, part);
    assert done + part <= done + keys;
  }

  lemma PartIs(before: seq<Key>, part: seq<Key>, keys: seq<Key>)
    requires part <= keys
    ensures PartNoted(before, NotedAll(before, part), keys)
  {
  }

  lemma NoSteps(c: ShopRecipe)
    ensures InStep([], c)
  {
    assert [] <= InOrder(c) && NotedAll([], []) == [];
  }

  /** One transaction. By the time its first lock is granted others may have written anything, and
      from then on it finds the rows as they are when it commits: those it locks stay as they are. */
  class Store {
    var rows: Database
    var locked: seq<Key>
    const next: Database

    constructor (rows: Database, next: Database)
      ensures this.rows == rows && this.next == next && locked == []
    {
      this.rows, this.next, locked := rows, next, [];
    }

    /** What the next lock finds. */
    ghost function Sees(): Database
      reads this
    {
      if locked == [] then next else rows
    }

    /** It has done what the recipe says, to the rows as they were when it began if it locked none
        and as they are when it commits if it did; and locked rows in the recipe's order. */
    ghost predicate Ran(c: ShopRecipe, first: Database, answer: Answer)
      reads this
    {
      Does(c, if locked == [] then first else next, rows, answer) && InStep(locked, c)
    }

    /** If it wrote anything it had locked all the recipe's rows. */
    ghost predicate LockedAll(c: ShopRecipe)
      reads this
    {
      locked != [] && rows != next ==> locked == NotedAll([], InOrder(c))
    }

    /** Refused, or answered with what its key's first use made, before it locked anything. */
    lemma StopsAtOnce(c: ShopRecipe, first: Database, answer: Answer)
      requires locked == [] && rows == first && Ends(c, first) == Some(answer)
      ensures Ran(c, first, answer) && LockedAll(c)
    {
      hide Effect, Ends, Leaves, InOrder;
      DoesEither(c, first);
      NoSteps(c);
    }

    /** The same under some of its locks, having written nothing or undone it. */
    lemma Stops(c: ShopRecipe, first: Database, answer: Answer)
      requires locked != [] && rows == next && Ends(c, next) == Some(answer) && InStep(locked, c)
      ensures Ran(c, first, answer) && LockedAll(c)
    {
      hide Effect, Ends, Leaves, InOrder, InStep;
      DoesEither(c, next);
    }

    lemma Finishes(c: ShopRecipe, first: Database, answer: Answer)
      requires locked != [] && Ends(c, next).None? && (rows, answer) == Leaves(c, next) && InStep(locked, c)
      ensures Ran(c, first, answer)
    {
      hide Effect, Ends, Leaves, InOrder, InStep;
      DoesEither(c, next);
    }

    /** A row locked until the end, and read. */
    method Lock(k: Key) returns (row: Option<Row>)
      modifies this`rows, this`locked
      ensures rows == old(Sees()) && locked == Noted(old(locked), k)
      ensures row == Read(rows, k)
    {
      if locked == [] {
        rows := next;
      }
      if k !in locked {
        locked := locked + [k];
      }
      row := Read(rows, k);
    }

    /** Everything it has written undone. */
    method Rollback()
      requires locked != []
      modifies this`rows
      ensures rows == next
    {
      rows := next;
    }

    /** The next number of a sequence, its row locked until the end. */
    method NextNumber(sequence: Sequence) returns (number: nat)
      modifies this`rows, this`locked
      ensures number == LastNumber(Read(old(Sees()), NumberOf(sequence))) + 1
      ensures rows == old(Sees())[NumberOf(sequence) := Counter(number)]
      ensures locked == Noted(old(locked), NumberOf(sequence))
    {
      var row := Lock(NumberOf(sequence));
      number := LastNumber(row) + 1;
      rows := rows[NumberOf(sequence) := Counter(number)];
    }

    /** What the key's first use made, if it has been used: looked for without a lock. */
    method MadeBy(claim: Option<Key>) returns (made: Option<Answer>)
      ensures made == Found(claim, rows)
    {
      if claim.Some? && claim.value in rows { return Some(Retold(rows[claim.value])); }
      made := None;
    }

    /** The key taken, by the INSERT of the document it stands for: unless it was, and then what its
        first use made. */
    method Claim(claim: Option<Key>, document: Document) returns (made: Option<Answer>)
      modifies this`rows, this`locked
      ensures locked == WithKey(old(locked), claim)
      ensures made == Found(claim, old(Sees()))
      ensures rows == if made.Some? then old(Sees())
          else Claiming(if claim.Some? then old(Sees()) else old(rows), claim, document)
    {
      made := None;
      if claim.Some? {
        var row := Lock(claim.value);
        if row.Some? { return Some(Retold(row.value)); }
        rows := rows[claim.value := Claimed(document)];
      }
    }

    /** The same where the key has just been looked for, under the rows' locks. */
    method Insert(claim: Option<Key>, document: Document)
      requires locked != [] && (claim.Some? ==> claim.value !in rows)
      modifies this`rows, this`locked
      ensures rows == Claiming(old(rows), claim, document)
      ensures locked == WithKey(old(locked), claim)
    {
      if claim.Some? {
        var row := Lock(claim.value);
        rows := rows[claim.value := Claimed(document)];
      }
    }

    method LockAccount(id: nat) returns (account: Option<Money.Account>)
      modifies this`rows, this`locked
      ensures rows == old(Sees()) && locked == Noted(old(locked), AccountAt(id))
      ensures account == AccountIn(Read(rows, AccountAt(id)))
    {
      var row := Lock(AccountAt(id));
      account := AccountIn(row);
    }

    /** The locked row's balance moved and the matching posting appended. */
    method Apply(id: nat, account: Money.Account, kind: Money.Kind, delta: int, cause: Money.Cause)
      modifies this`rows
      ensures rows == old(rows)[AccountAt(id) := AnAccount(Money.Post(account, kind, delta, cause))]
    {
      var balance := account.balance + delta;
      var posting := Money.Posting(kind, delta, balance, cause);
      rows := rows[AccountAt(id) := AnAccount(account.(balance := balance, postings := account.postings + [posting]))];
    }

    /** The locked shelf's figures moved and the matching entry appended. */
    method WriteLedger(id: nat, shelf: Stock.Shelf, kind: Stock.Movement, delta: int, reference: Stock.Reference)
      returns (after: Stock.Shelf)
      modifies this`rows
      ensures after == Stock.Write(shelf, kind, delta, reference)
      ensures rows == old(rows)[ShelfAt(id) := AShelf(after)]
    {
      var onHand, reserved := shelf.onHand, shelf.reserved;
      if Stock.Reserving(kind) {
        reserved := reserved + delta;
      } else {
        onHand := onHand + delta;
      }
      after := shelf.(onHand := onHand, reserved := reserved,
                      ledger := shelf.ledger + [Stock.Entry(kind, delta, onHand, reserved, reference)]);
      rows := rows[ShelfAt(id) := AShelf(after)];
    }
  }
}
