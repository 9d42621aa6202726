/**
 * The pattern-matching tutorial: an optional e-mail lookup, a user whose
 * description depends on whether it has an e-mail, an account lookup by id,
 * and the mapping of a drawn value to an HTTP status.
 */
module PatternMatchings {
  import opened Wrappers
  import opened Numbers

  const KNOWN_EMAIL: string := "user@example.com"

  /** `get_email`: only user 1 has an e-mail. */
  function GetEmail(userId: u32): (email: Option<string>)
    ensures email.Some? <==> userId == 1
    ensures email.Some? ==> email.value == KNOWN_EMAIL
  {
    if userId == 1 then Some(KNOWN_EMAIL) else None
  }

  datatype User = User(id: u32, name: string, email: Option<string>)
  {
    static function New(id: u32, name: string, email: Option<string>): (u: User)
      ensures u.id == id && u.name == name && u.email == email
    {
      User(id, name, email)
    }

    /** `info`: "id - name", followed by " (email)" when there is one. */
    function Info(): string
    {
      match email
      case Some(e) => NatToString(id) + " - " + name + " (" + e + ")"
      case None => NatToString(id) + " - " + name
    }
  }

  /**
   * The description with an e-mail is the description without it followed by
   * the e-mail in parentheses; the description always starts with the id and
   * " - ".
   */
  lemma InfoWithAndWithoutEmail(id: u32, name: string, e: string)
    ensures User(id, name, Some(e)).Info() == User(id, name, None).Info() + " (" + e + ")"
    ensures NatToString(id) + " - " <= User(id, name, None).Info()
    ensures NatToString(id) + " - " <= User(id, name, Some(e)).Info()
  {
    var prefix := NatToString(id) + " - ";
    assert User(id, name, None).Info() == prefix + name;
    assert User(id, name, Some(e)).Info() == prefix + (name + " (" + e + ")");
  }

  /** The tutorial's user. */
  lemma InfoExample()
    ensures User.New(1, "Baran", Some("baran@example.com")).Info() == "1 - Baran (baran@example.com)"
  {
    var text := NatToString(1);
    assert text == "1";
    text := text + " - ";
    assert text == "1 - ";
    text := text + "Baran";
    assert text == "1 - Baran";
    text := text + " (";
    assert text == "1 - Baran (";
    text := text + "baran@example.com";
    assert text == "1 - Baran (baran@example.com";
    text := text + ")";
    assert text == "1 - Baran (baran@example.com)";
  }

  /** `Account`; the balance is an `f64` in the source and only carried along. */
  datatype Account = Account(id: u32, holderName: string, balance: real)

  /** `find_account`: the first account with the id, if any. */
  function FindAccount(accounts: seq<Account>, id: u32): (found: Option<Account>)
    ensures found.None? <==> forall k | 0 <= k < |accounts| :: accounts[k].id != id
    ensures found.Some? ==> found.value.id == id && found.value in accounts
  {
    if accounts == [] then None
    else if accounts[0].id == id then Some(accounts[0])
    else FindAccount(accounts[1..], id)
  }

  /** The account found is the first one with the id: every account before it has another id. */
  lemma {:induction false} FindAccountFirst(accounts: seq<Account>, id: u32, k: nat)
    requires k < |accounts| && accounts[k].id == id
    ensures FindAccount(accounts, id).Some?
    ensures exists j | 0 <= j <= k :: FindAccount(accounts, id) == Some(accounts[j]) && forall i | 0 <= i < j :: accounts[i].id != id
    decreases k
  {
    if accounts[0].id == id {
      assert FindAccount(accounts, id) == Some(accounts[0]);
    } else {
      FindAccountFirst(accounts[1..], id, k - 1);
      var j :| 0 <= j <= k - 1 && FindAccount(accounts[1..], id) == Some(accounts[1..][j]) && forall i | 0 <= i < j :: accounts[1..][i].id != id;
      assert FindAccount(accounts, id) == Some(accounts[j + 1]);
      forall i | 0 <= i < j + 1 ensures accounts[i].id != id {
        if i > 0 {
          assert accounts[i] == accounts[1..][i - 1];
        }
      }
    }
  }

  /** `load_accounts`. */
  function LoadAccounts(): (accounts: seq<Account>)
    ensures |accounts| == 4
  {
    [
      Account(1001, "Nora Min", 1000.0),
      Account(1002, "Agnis Yang", 750.0),
      Account(1003, "Valeri Mora", 850.0),
      Account(1004, "Monti Konti", 275.0)
    ]
  }

  /** The loaded accounts have the distinct ids 1001 to 1004, and account 1003 is Valeri Mora's. */
  lemma LoadAccountsFacts()
    ensures forall k | 0 <= k < |LoadAccounts()| :: LoadAccounts()[k].id == 1001 + k
    ensures forall j, k | 0 <= j < k < |LoadAccounts()| :: LoadAccounts()[j].id != LoadAccounts()[k].id
    ensures FindAccount(LoadAccounts(), 1003).Some?
    ensures FindAccount(LoadAccounts(), 1003).value.holderName == "Valeri Mora"
    ensures FindAccount(LoadAccounts(), 1005).None?
  {
    var accounts := LoadAccounts();
    assert accounts[1..][1..][0] == accounts[2];
  }

  datatype HttpStatus = Ok | Accepted | NotFound | BadRequest | InternalServerError

  /** The `match` in `ping` on the drawn value, which the random generator picks from 1 to 10. */
  function Ping(draw: int): (status: HttpStatus)
    requires 1 <= draw <= 10
    ensures status == HttpStatus.Ok <==> draw == 1
    ensures status == Accepted <==> 2 <= draw <= 4
    ensures status == BadRequest <==> draw == 5
    ensures status == NotFound <==> draw == 8 || draw == 10
    ensures status == InternalServerError <==> draw == 6 || draw == 7 || draw == 9
  {
    match draw
    case 1 => HttpStatus.Ok
    case 2 | 3 | 4 => Accepted
    case 5 => BadRequest
    case 8 | 10 => NotFound
    case _ => InternalServerError
  }

  /** The status for each of the ten equally likely draws. */
  lemma PingTable()
    ensures seq(10, i requires 0 <= i < 10 => Ping(i + 1))
         == [HttpStatus.Ok, Accepted, Accepted, Accepted, BadRequest, InternalServerError, InternalServerError, NotFound, InternalServerError, NotFound]
  {
  }
}
