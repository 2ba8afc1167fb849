# Chapter 2 microservice examples: TPS health gate and customer registration

This project models the two pieces of logic that the chapter 2 Spring Boot
examples implement themselves, rather than delegating to the framework.

**TPS health gate** (`tps_health.dfy`, module `TpsHealth`). `TPSCounter` is a
one-minute window. It holds a transaction count, a threshold of 2 and an
expiry instant one minute after its creation. `TPSHealth` is a health
indicator. Its `updateTx` replaces a missing or expired counter with a fresh
one and then increments the current counter. Its `health` reports
`OUT_OF_SERVICE` with the detail `"Too many requests" -> "OutofService"` when
the counter is weak, and `UP` otherwise.

The model has two layers:
- A value-level specification: `Window`, `RecordTx`, `Report`, and `Run` for a
  sequence of requests.
- The two classes. Their methods update fields in place and are proved
  against that specification.

The wall clock is an explicit argument `now`, in milliseconds. One minute is
60000. `isExpired` is a strict comparison, so a window is still live at its
exact expiry instant.

The `LongAdder` count is a `nat`. `count.intValue()` is modelled as Java's
narrowing to a 32-bit `int`. As a consequence, a count of 2^31 or more can read
as negative, and the window stops being weak (`WeakWrapsAtIntOverflow`).

**Customer registration** (`customer.dfy`, module `CustomerService`).
- `Customer` is a record: an optional `id`, a `name` and an `email`. Its
  `toString` is modelled too, including Java's rendering of a `Long` or `null`
  id (`java_text.dfy`, module `JavaText`).
- The JPA repository is a class holding the table of saved customers, in
  save order, with a lookup by name.
- The RabbitMQ `Sender` is a class holding an append-only outbox for the
  queue `"CustomerQ"`.
- `CustomerRegistrar.register` fails with `"is already exits."` when the name is
  already stored, and then changes nothing. Otherwise it saves the customer,
  sends the customer's email, and returns the customer.
- The repository and the sender share one ghost `Journal`. Each `save` and
  each `send` appends its own entry to it. So the order of the entries is
  the order of the real calls, and `register` states that the save comes
  before the send.
- `Application.init` is the seeding of Adam1 to Adam7.

`wrappers.dfy` holds the `Option` and `Result` types used for nullable fields
and thrown exceptions.

Two points where the code's behaviour is easy to misread:
- `howGoodIsHealth` (Application.java:98-100) dereferences `counter` without
  a null check. So `health()` before any `updateTx()` throws. The model
  returns `Failure(NullPointerException)` in that case (`Report`,
  `HowGoodIsHealth`, `HealthBeforeAnyTransaction`), never `UP`.
- `isWeak` compares the 32-bit `intValue()` of the count with the threshold
  (Application.java:61), and so does the model. The class comment at
  Application.java:33 says two or more requests in a minute put the service
  out of service. The comparison `>` with threshold 2 in fact needs three or
  more. The model follows the code (`ThresholdOfTwo`, `BurstVerdict`).

## Model

| member | source | states |
|---|---|---|
| TpsHealth.IntValue | chap02/actuator/src/main/java/org/rvslab/chap02/actuator/Application.java:60-62 | `intValue()` of the count is a Java `int` congruent to it modulo 2^32, and equals it for every count below 2^31 |
| TpsHealth.RecordTx | chap02/actuator/src/main/java/org/rvslab/chap02/actuator/Application.java:91-96 | After `updateTx` at `now`, the window is not expired at `now`. A missing or expired window is replaced by a fresh one with count exactly 1, threshold 2 and expiry now + 1 minute. A live window keeps its threshold and expiry, and its count rises by exactly 1 |
| TpsHealth.Report | chap02/actuator/src/main/java/org/rvslab/chap02/actuator/Application.java:83-100 | `health()` fails with a null-pointer fault exactly when there is no counter. Otherwise it returns out-of-service with detail "Too many requests"/"OutofService" exactly when the window is weak, and up exactly when it is not |
| TpsHealth.FreshWindowLifetime | chap02/actuator/src/main/java/org/rvslab/chap02/actuator/Application.java:37-54 | A new counter has count 0, threshold 2 and expiry creation + 60000 ms. It is live up to and including that instant, and expired from one millisecond later |
| TpsHealth.WeakIffOverThreshold | chap02/actuator/src/main/java/org/rvslab/chap02/actuator/Application.java:60-62 | For every count an `int` can hold, weak holds exactly when count > threshold |
| TpsHealth.ThresholdOfTwo | chap02/actuator/src/main/java/org/rvslab/chap02/actuator/Application.java:39-62 | With threshold 2, a count of 2 is not weak and a count of 3 is weak |
| TpsHealth.WeakWrapsAtIntOverflow | chap02/actuator/src/main/java/org/rvslab/chap02/actuator/Application.java:60-62 | A count of 2^31 narrows to -2^31, so that window is not weak |
| TpsHealth.SameWindowOnlyGrows | chap02/actuator/src/main/java/org/rvslab/chap02/actuator/Application.java:91-96 | If `updateTx` leaves the expiry unchanged, the window was live and only its count rose, by one. A window's count never decreases during its lifetime |
| TpsHealth.RunWithinLiveWindow | chap02/actuator/src/main/java/org/rvslab/chap02/actuator/Application.java:91-96 | Any number n of requests no later than a live window's expiry leave the same window with its count raised by exactly n |
| TpsHealth.BurstOpensOneWindow | chap02/actuator/src/main/java/org/rvslab/chap02/actuator/Application.java:91-96 | A burst that starts with no live window and ends within one minute of its first request yields one window, created at the first request, holding one count per request |
| TpsHealth.BurstVerdict | chap02/actuator/src/main/java/org/rvslab/chap02/actuator/Application.java:83-100 | From a gate that never saw a transaction, n requests within one minute of the first give out-of-service exactly when n > 2, and up otherwise |
| TpsHealth.HealthBeforeAnyTransaction | chap02/actuator/src/main/java/org/rvslab/chap02/actuator/Application.java:98-100 | With no transaction yet, `health()` fails with a null-pointer fault and does not report up |
| TpsHealth.ExpiryResets | chap02/actuator/src/main/java/org/rvslab/chap02/actuator/Application.java:91-96 | A request after expiry discards the old count. The new window holds count 1 with expiry now + 1 minute, and reports up |
| TpsHealth.TwoThenAfterTheMinute | chap02/actuator/src/main/java/org/rvslab/chap02/actuator/Application.java:83-100 | Two requests within a minute, then one after it: the first window holds 2, the second holds 1, and health is up |
| TpsHealth.TPSCounter.constructor | chap02/actuator/src/main/java/org/rvslab/chap02/actuator/Application.java:37-46 | A new counter at `now` has count 0, threshold 2 and expiry now + 60000 |
| TpsHealth.TPSCounter.IsExpired | chap02/actuator/src/main/java/org/rvslab/chap02/actuator/Application.java:52-54 | Expired exactly when `now` is strictly after the expiry; agrees with the specification's `Expired` |
| TpsHealth.TPSCounter.IsWeak | chap02/actuator/src/main/java/org/rvslab/chap02/actuator/Application.java:60-62 | Agrees with the specification's `Weak`. Below 2^31 it is exactly count > threshold |
| TpsHealth.TPSCounter.Increment | chap02/actuator/src/main/java/org/rvslab/chap02/actuator/Application.java:67-69 | The count rises by exactly 1; threshold and expiry are unchanged |
| TpsHealth.TPSHealth.constructor | chap02/actuator/src/main/java/org/rvslab/chap02/actuator/Application.java:76-77 | A new indicator holds no counter |
| TpsHealth.TPSHealth.UpdateTx | chap02/actuator/src/main/java/org/rvslab/chap02/actuator/Application.java:91-96 | Afterwards a counter exists and is live at `now`, and the held window is `RecordTx` of the old one. The counter is a new object exactly when the old one was missing or expired; otherwise the same object was incremented in place |
| TpsHealth.TPSHealth.HowGoodIsHealth | chap02/actuator/src/main/java/org/rvslab/chap02/actuator/Application.java:98-100 | Fails with a null-pointer fault exactly when there is no counter. Otherwise it returns whether the counter is weak |
| TpsHealth.TPSHealth.HealthReport | chap02/actuator/src/main/java/org/rvslab/chap02/actuator/Application.java:83-89 | `health()` of the held state equals `Report` of the held window. It is a function of the state, so it changes nothing |
| JavaText.NatDigits | chap02/customer/src/main/java/org/rvslab/chap02/customer/Application.java:195 | The decimal rendering is non-empty, all digits, and has no leading zero |
| JavaText.LongToString | chap02/customer/src/main/java/org/rvslab/chap02/customer/Application.java:195 | The rendering of a `Long` starts with '-' exactly for negative numbers, followed by digits only |
| JavaText.NatDigitsRoundTrip | chap02/customer/src/main/java/org/rvslab/chap02/customer/Application.java:195 | Reading the rendered digits back gives the number |
| JavaText.LongToStringInjective | chap02/customer/src/main/java/org/rvslab/chap02/customer/Application.java:195 | Distinct ids render as distinct strings |
| JavaText.LongToStringExamples | chap02/customer/src/main/java/org/rvslab/chap02/customer/Application.java:195 | 0, 7, 42 and -305 render as "0", "7", "42" and "-305" |
| CustomerService.NewCustomer | chap02/customer/src/main/java/org/rvslab/chap02/customer/Application.java:164-167 | `new Customer(name, email)` has the given name and email and no id |
| CustomerService.IdText | chap02/customer/src/main/java/org/rvslab/chap02/customer/Application.java:195 | An absent id renders as "null" and only then. No id rendering contains a comma |
| CustomerService.ToString | chap02/customer/src/main/java/org/rvslab/chap02/customer/Application.java:193-196 | `toString` is "Customer [id=", then the id (`null` when absent, else `Long.toString`), then ", name=", the name, ", email=", the email and "]". Each piece is at its stated position, and the length is 29 plus the lengths of the id text, name and email |
| CustomerService.ToStringDeterminesId | chap02/customer/src/main/java/org/rvslab/chap02/customer/Application.java:193-196 | Two customers with the same `toString` have the same id |
| CustomerService.FindFirstByName | chap02/customer/src/main/java/org/rvslab/chap02/customer/Application.java:146 | The lookup finds a customer exactly when some row has that name. It returns the first such row |
| CustomerService.FindStoredCustomer | chap02/customer/src/main/java/org/rvslab/chap02/customer/Application.java:105-108 | When names are distinct, looking up a stored customer's name returns exactly that customer |
| CustomerService.AppendFreshNameKeepsDistinct | chap02/customer/src/main/java/org/rvslab/chap02/customer/Application.java:105-111 | Saving a customer whose name the lookup does not find keeps names distinct, and the lookup then finds that customer |
| CustomerService.SeedFacts | chap02/customer/src/main/java/org/rvslab/chap02/customer/Application.java:44-53 | The seed is exactly seven customers. Customer k is named "Adamk" with email "adamk@boot.com", for k from 1 to 7. None has an id, and no two share a name |
| CustomerService.Init | chap02/customer/src/main/java/org/rvslab/chap02/customer/Application.java:44-53 | The repository gains the seven seed customers at its end, in order. The journal gains one save entry per customer, in the same order, and nothing else changes |
| CustomerService.CustomerRepository.FindByName | chap02/customer/src/main/java/org/rvslab/chap02/customer/Application.java:146 | Finds a customer exactly when the table holds that name, and the one found has that name |
| CustomerService.CustomerRepository.Save | chap02/customer/src/main/java/org/rvslab/chap02/customer/Application.java:110 | The table gains exactly the saved customer at its end, and the journal gains one save entry for it |
| CustomerService.Sender.constructor | chap02/customer/src/main/java/org/rvslab/chap02/customer/Application.java:128-131 | The sender targets the queue "CustomerQ" and has sent nothing |
| CustomerService.Sender.Send | chap02/customer/src/main/java/org/rvslab/chap02/customer/Application.java:133-135 | The outbox gains exactly the message at its end, and the journal gains one send entry for it |
| CustomerService.CustomerRegistrar.constructor | chap02/customer/src/main/java/org/rvslab/chap02/customer/Application.java:98-102 | The registrar uses the given repository and sender, which share one journal |
| CustomerService.CustomerRegistrar.Register | chap02/customer/src/main/java/org/rvslab/chap02/customer/Application.java:104-114 | A taken name gives `AlreadyExists("is already exits.")` and leaves the table, the outbox and the journal unchanged. A new name returns the very customer given, appends it to the table, and appends exactly its email to the outbox. The shared journal gains a save entry followed by a send entry, so the save call precedes the send call. Distinct names stay distinct |

## Left out

- Concurrency: `LongAdder`'s lock-free increments and the check-then-act race in `updateTx`. The gate is modelled as sequential.
- The wall clock (`Calendar.getInstance()`) is I/O. It is the parameter `now`. The source reads the clock twice in one `updateTx` (in `isExpired` and in the new counter's constructor); the model uses one instant for both.
- `GreetingController.greet` and `Greet`: the `CounterService` and `GaugeService` metrics (framework calls, and the gauge value is a double). Its call of `updateTx` is plain delegation.
- `CustomerController.register`, request mapping, Spring bootstrapping (`main`) and logging are framework plumbing.
- JPA id generation: `save` keeps the customer as given and assigns no id.
- JPA merge semantics: saving a customer whose id matches a stored row would update that row; the model always appends.
- JPA's derived `findByName` query: the model returns the first row with the name. The real query throws when several rows match. Registration keeps names distinct, so that case does not arise through `register` or `init`.
- Null `name` or `email`, which a request body without those fields would give. The model's fields are non-null strings.
- `Customer`'s getters and setters are record fields and record updates. Entity object identity is not modelled, so `register` returns a value equal to its argument.
- Failures of the repository or the broker are not modelled. The model's `save` and `send` cannot fail, so the save-before-send order is stated through the journal that both collaborators write, not through a partial failure.
- The RabbitMQ transport and the queue's durability flag.
- The other chapter 2 examples: OAuth2 and Basic authentication, HATEOAS links, messaging listeners and mail, Swagger, and the integration tests. They are framework features or HTTP and messaging I/O.
- `id` is an unbounded integer, not a 64-bit `Long`. Its rendering is the same for every value a `Long` can hold.
