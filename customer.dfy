/**
 * The customer example's registration rule: a customer whose name is already
 * stored is rejected; otherwise the customer is saved and one notification,
 * carrying the customer's email, is sent to the customer queue.
 *
 * The JPA repository is an ordered table of `Customer` records with a
 * lookup by name; the RabbitMQ sender is an append-only outbox.
 */
module CustomerService {
  import opened Wrappers
  import JavaText

  /** The `Customer` entity; `id` is null until the persistence layer assigns one. */
  datatype Customer = Customer(id: Option<int>, name: string, email: string)

  /** `new Customer(name, email)`: no id yet. */
  function NewCustomer(name: string, email: string): (c: Customer)
    ensures c.id == None && c.name == name && c.email == email
  {
    Customer(None, name, email)
  }

  /** How string concatenation renders the `Long id` field: "null" when absent. */
  function IdText(id: Option<int>): (s: string)
    ensures id.None? <==> s == "null"
    ensures forall i :: 0 <= i < |s| ==> s[i] != ','
  {
    match id
    case None => "null"
    case Some(n) => JavaText.LongToString(n)
  }

  /**
   * `Customer.toString()`: "Customer [id=" + id + ", name=" + name +
   * ", email=" + email + "]", with the id rendered by `IdText`. The pieces
   * are joined right to left, which gives the same string as Java's
   * left-to-right concatenation.
   */
  function ToString(c: Customer): (s: string)
    ensures |s| == 29 + |IdText(c.id)| + |c.name| + |c.email|
    ensures s[..13] == "Customer [id="
    ensures s[13..13 + |IdText(c.id)|] == IdText(c.id)
    ensures s[13 + |IdText(c.id)|..20 + |IdText(c.id)|] == ", name="
    ensures s[20 + |IdText(c.id)|..20 + |IdText(c.id)| + |c.name|] == c.name
    ensures s[|s| - |c.email| - 9..|s| - |c.email| - 1] == ", email="
    ensures s[|s| - |c.email| - 1..] == c.email + "]"
  {
    var id := IdText(c.id);
    var emailPart := ", email=" + (c.email + "]");
    var namePart := ", name=" + (c.name + emailPart);
    var s := "Customer [id=" + (id + namePart);
    assert s[13..] == id + namePart;
    assert s[13 + |id|..] == namePart;
    assert s[20 + |id|..] == c.name + emailPart;
    assert s[|s| - |emailPart|..] == emailPart;
    s
  }

  /** A string that begins with a comma-free part and then a comma determines that part. */
  lemma CommaFreePrefix(u: string, a: string, b: string)
    requires forall i :: 0 <= i < |a| ==> a[i] != ','
    requires forall i :: 0 <= i < |b| ==> b[i] != ','
    requires |a| < |u| && u[..|a|] == a && u[|a|] == ','
    requires |b| < |u| && u[..|b|] == b && u[|b|] == ','
    ensures a == b
  {
    assert forall i :: 0 <= i < |a| ==> u[i] == a[i];
    assert forall i :: 0 <= i < |b| ==> u[i] == b[i];
    assert |a| == |b|;
  }

  /** The rendering names the id unambiguously: customers printed alike have the same id. */
  lemma ToStringDeterminesId(c1: Customer, c2: Customer)
    requires ToString(c1) == ToString(c2)
    ensures c1.id == c2.id
  {
    var s, a, b := ToString(c1), IdText(c1.id), IdText(c2.id);
    var u := s[13..];
    assert u[..|a|] == s[13..13 + |a|] == a;
    assert u[..|b|] == s[13..13 + |b|] == b;
    assert u[|a|] == s[13 + |a|..20 + |a|][0] == ',';
    assert u[|b|] == s[13 + |b|..20 + |b|][0] == ',';
    CommaFreePrefix(u, a, b);
    if c1.id.Some? && c2.id.Some? {
      JavaText.LongToStringInjective(c1.id.value, c2.id.value);
    }
  }

  // ---------------------------------------------------------------------
  // The table and the lookup by name
  // ---------------------------------------------------------------------

  /** Some stored customer has this name. */
  predicate NameTaken(rows: seq<Customer>, name: string) {
    exists i :: 0 <= i < |rows| && rows[i].name == name
  }

  /** No two stored customers share a name. */
  predicate NamesDistinct(rows: seq<Customer>) {
    forall i, j :: 0 <= i < j < |rows| ==> rows[i].name != rows[j].name
  }

  /** `findByName`: the first stored customer with this name, if any. */
  function FindFirstByName(rows: seq<Customer>, name: string): (r: Option<Customer>)
    ensures r.Some? <==> NameTaken(rows, name)
    ensures r.Some? ==> exists i :: 0 <= i < |rows| && rows[i] == r.value && r.value.name == name
                         && forall j :: 0 <= j < i ==> rows[j].name != name
    decreases |rows|
  {
    if rows == [] then None
    else if rows[0].name == name then Some(rows[0])
    else
      var r := FindFirstByName(rows[1..], name);
      assert NameTaken(rows[1..], name) ==> NameTaken(rows, name) by {
        if NameTaken(rows[1..], name) {
          var i :| 0 <= i < |rows[1..]| && rows[1..][i].name == name;
          assert rows[i + 1].name == name;
        }
      }
      assert NameTaken(rows, name) ==> NameTaken(rows[1..], name) by {
        if NameTaken(rows, name) {
          var i :| 0 <= i < |rows| && rows[i].name == name;
          assert i > 0 && rows[1..][i - 1].name == name;
        }
      }
      if r.Some? then
        assert exists i :: 0 <= i < |rows| && rows[i] == r.value && r.value.name == name
                           && forall j :: 0 <= j < i ==> rows[j].name != name by {
          var k :| 0 <= k < |rows[1..]| && rows[1..][k] == r.value && r.value.name == name
                   && forall j :: 0 <= j < k ==> rows[1..][j].name != name;
          assert forall j :: 0 <= j < k + 1 ==> rows[j].name != name by {
            forall j | 0 <= j < k + 1 ensures rows[j].name != name {
              if j > 0 { assert rows[j] == rows[1..][j - 1]; }
            }
          }
          assert rows[k + 1] == r.value;
        }
        r
      else r
  }

  /** With distinct names, looking up a stored customer's name finds exactly that customer. */
  lemma FindStoredCustomer(rows: seq<Customer>, i: int)
    requires NamesDistinct(rows)
    requires 0 <= i < |rows|
    ensures FindFirstByName(rows, rows[i].name) == Some(rows[i])
  {
  }

  /** Appending a customer whose name is not taken keeps the names distinct. */
  lemma AppendFreshNameKeepsDistinct(rows: seq<Customer>, c: Customer)
    requires NamesDistinct(rows)
    requires FindFirstByName(rows, c.name) == None
    ensures NamesDistinct(rows + [c])
    ensures FindFirstByName(rows + [c], c.name) == Some(c)
  {
    var rows' := rows + [c];
    forall i, j | 0 <= i < j < |rows'| ensures rows'[i].name != rows'[j].name {
      if j == |rows| {
        assert rows'[i] == rows[i];
      } else {
        assert rows'[i] == rows[i] && rows'[j] == rows[j];
      }
    }
    FindStoredCustomer(rows', |rows|);
  }

  // ---------------------------------------------------------------------
  // The seed data written by `Application.init`
  // ---------------------------------------------------------------------

  /** The seven customers `init` saves, in order. */
  function Seed(): seq<Customer> {
    [ NewCustomer("Adam1", "adam1@boot.com"),
      NewCustomer("Adam2", "adam2@boot.com"),
      NewCustomer("Adam3", "adam3@boot.com"),
      NewCustomer("Adam4", "adam4@boot.com"),
      NewCustomer("Adam5", "adam5@boot.com"),
      NewCustomer("Adam6", "adam6@boot.com"),
      NewCustomer("Adam7", "adam7@boot.com") ]
  }

  /** The seed is "Adamk" with email "adamk@boot.com" for k from 1 to 7, without ids and without a repeated name. */
  lemma SeedFacts()
    ensures |Seed()| == 7
    ensures forall i :: 0 <= i < 7 ==>
              && Seed()[i].id == None
              && Seed()[i].name == "Adam" + [JavaText.DigitChar(i + 1)]
              && Seed()[i].email == "adam" + [JavaText.DigitChar(i + 1)] + "@boot.com"
    ensures NamesDistinct(Seed())
  {
    var s := Seed();
    forall i | 0 <= i < 7
      ensures s[i].name == "Adam" + [JavaText.DigitChar(i + 1)]
      ensures s[i].email == "adam" + [JavaText.DigitChar(i + 1)] + "@boot.com"
    {
      assert JavaText.DigitChar(i + 1) == "1234567"[i];
    }
    forall i, j | 0 <= i < j < 7 ensures s[i].name != s[j].name {
      assert s[i].name[4] == JavaText.DigitChar(i + 1);
      assert s[j].name[4] == JavaText.DigitChar(j + 1);
    }
  }

  // ---------------------------------------------------------------------
  // The source's collaborators and the registrar
  // ---------------------------------------------------------------------

  /** A call made on one of the registrar's collaborators. */
  datatype Effect = Saved(customer: Customer) | Sent(message: string)

  /** The `save` calls recorded for the given customers, in order. */
  function SaveEvents(cs: seq<Customer>): (es: seq<Effect>)
    ensures |es| == |cs| && forall i :: 0 <= i < |cs| ==> es[i] == Saved(cs[i])
  {
    seq(|cs|, i requires 0 <= i < |cs| => Saved(cs[i]))
  }

  /**
   * The order in which the repository and the sender were called, oldest
   * first. Both collaborators of one registrar append to the same journal,
   * so it shows how their calls interleave.
   */
  class Journal {
    ghost var events: seq<Effect>

    constructor ()
      ensures events == []
    {
      events := [];
    }
  }

  /** `CustomerRepository`: the stored customers, in the order they were saved. */
  class CustomerRepository {
    var rows: seq<Customer>
    ghost const journal: Journal

    constructor (ghost journal: Journal)
      ensures rows == [] && this.journal == journal
    {
      rows := [];
      this.journal := journal;
    }

    /** `findByName(name)`. */
    function FindByName(name: string): (r: Option<Customer>)
      reads this
      ensures r.Some? <==> NameTaken(rows, name)
      ensures r.Some? ==> r.value.name == name
    {
      FindFirstByName(rows, name)
    }

    /** `save(customer)` of a new entity: the table gains that row at the end, and the call is journalled. */
    method Save(customer: Customer)
      modifies this, journal
      ensures rows == old(rows) + [customer]
      ensures journal.events == old(journal.events) + [Saved(customer)]
    {
      rows := rows + [customer];
      journal.events := journal.events + [Saved(customer)];
    }
  }

  /** `Sender`: the messages put on the queue "CustomerQ", oldest first. */
  class Sender {
    const queue: string
    var sent: seq<string>
    ghost const journal: Journal

    constructor (ghost journal: Journal)
      ensures queue == "CustomerQ" && sent == [] && this.journal == journal
    {
      queue := "CustomerQ";
      sent := [];
      this.journal := journal;
    }

    /** `send(message)`: the message is appended to the outbox, and the call is journalled. */
    method Send(message: string)
      modifies this, journal
      ensures sent == old(sent) + [message]
      ensures journal.events == old(journal.events) + [Sent(message)]
    {
      sent := sent + [message];
      journal.events := journal.events + [Sent(message)];
    }
  }

  /** `Application.init`: seven `save` calls, Adam1 to Adam7, in that order. */
  method Init(repo: CustomerRepository)
    modifies repo, repo.journal
    ensures repo.rows == old(repo.rows) + Seed()
    ensures repo.journal.events == old(repo.journal.events) + SaveEvents(Seed())
  {
    repo.Save(NewCustomer("Adam1", "adam1@boot.com"));
    repo.Save(NewCustomer("Adam2", "adam2@boot.com"));
    repo.Save(NewCustomer("Adam3", "adam3@boot.com"));
    repo.Save(NewCustomer("Adam4", "adam4@boot.com"));
    repo.Save(NewCustomer("Adam5", "adam5@boot.com"));
    repo.Save(NewCustomer("Adam6", "adam6@boot.com"));
    repo.Save(NewCustomer("Adam7", "adam7@boot.com"));
  }

  /** What `register` throws for a taken name. */
  datatype RegistrationError = AlreadyExists(message: string)

  const AlreadyExistsMessage: string := "is already exits."

  /** `CustomerRegistrar`: the business rule in front of the repository and the sender. */
  class CustomerRegistrar {
    const customerRepository: CustomerRepository
    const sender: Sender

    /** The two collaborators record their calls in one journal. */
    ghost predicate Valid() {
      customerRepository.journal == sender.journal
    }

    constructor (customerRepository: CustomerRepository, sender: Sender)
      requires customerRepository.journal == sender.journal
      ensures this.customerRepository == customerRepository && this.sender == sender
      ensures Valid()
    {
      this.customerRepository := customerRepository;
      this.sender := sender;
    }

    /**
     * `register(customer)`: fails when the name is taken, changing nothing;
     * otherwise saves the customer, then sends its email, and returns it.
     */
    method Register(customer: Customer) returns (r: Result<Customer, RegistrationError>)
      requires Valid()
      modifies customerRepository, sender, customerRepository.journal
      ensures old(NameTaken(customerRepository.rows, customer.name)) ==>
                && r == Failure(AlreadyExists(AlreadyExistsMessage))
                && customerRepository.rows == old(customerRepository.rows)
                && sender.sent == old(sender.sent)
                && customerRepository.journal.events == old(customerRepository.journal.events)
      ensures !old(NameTaken(customerRepository.rows, customer.name)) ==>
                && r == Success(customer)
                && customerRepository.rows == old(customerRepository.rows) + [customer]
                && sender.sent == old(sender.sent) + [customer.email]
                && customerRepository.journal.events
                   == old(customerRepository.journal.events) + [Saved(customer), Sent(customer.email)]
      ensures old(NamesDistinct(customerRepository.rows)) ==> NamesDistinct(customerRepository.rows)
    {
      var existingCustomer := customerRepository.FindByName(customer.name);
      if existingCustomer.Some? {
        return Failure(AlreadyExists(AlreadyExistsMessage));
      }
      ghost var before := customerRepository.rows;
      customerRepository.Save(customer);
      sender.Send(customer.email);
      if NamesDistinct(before) {
        AppendFreshNameKeepsDistinct(before, customer);
      }
      r := Success(customer);
    }
  }

  /** Start-up followed by two registrations: a seeded name is refused, a new one is accepted. */
  method StartUpAndRegister()
  {
    var journal := new Journal();
    var repo := new CustomerRepository(journal);
    var sender := new Sender(journal);
    Init(repo);
    SeedFacts();
    var registrar := new CustomerRegistrar(repo, sender);
    var again := registrar.Register(NewCustomer("Adam3", "other@boot.com"));
    assert repo.rows[2].name == "Adam3";
    assert again == Failure(AlreadyExists("is already exits."));
    var bob := NewCustomer("Bob", "bob@boot.com");
    assert !NameTaken(repo.rows, "Bob") by {
      forall i | 0 <= i < |repo.rows| ensures repo.rows[i].name != "Bob" {
        assert repo.rows[i].name[..4] == "Adam";
      }
    }
    var ok := registrar.Register(bob);
    assert ok == Success(bob);
    assert sender.sent == ["bob@boot.com"];
    assert journal.events[7..] == [Saved(bob), Sent("bob@boot.com")];
    assert |repo.rows| == 8 && NamesDistinct(repo.rows);
  }
}
