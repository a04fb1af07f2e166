# GlobalOrderPlatform: the order-created pipeline, verified

GlobalOrderPlatform is made of two services joined by a Kafka topic:

- The **order service** accepts `POST /orders`. It builds an `OrderCreated` event with a fresh uuid, status `NEW` and the current time. It encodes the event in Avro binary form and produces it to `global.orders.v1`, keyed by the order id. It waits for the delivery report and answers 202 with the order id and offset, or an error.
- The **kitchen service** consumes the topic in a loop. It decodes each message, "prepares" the order, and commits the message's offset by hand. It stops on SIGINT/SIGTERM.
- A JWT **authorization middleware** and a token generator live in `pkg/auth`.

This Dafny project models these pieces and proves their properties. The modules are:

- `Wrappers`: `Option` and `Result`.
- `Avro`: the binary encoding of the Apache Avro Specification 1.11, section "Binary Encoding". It covers zig-zag varints for `int` (at most 5 bytes, 32 bits) and `long` (at most 10 bytes, 64 bits), length-prefixed `string`, and records of such fields. Every reader returns the value and the remaining input.
- `OrderEvent`: the `OrderCreated` struct and the record schema both services declare. `Marshal` looks each schema field up by its `avro` tag and writes the values in schema order. `Unmarshal` reads the values in schema order into the zero struct. Proved: the round trip, the field order, injectivity, and rejection of every truncated input.
- `OrderService`: `createOrder` as a pure function. It takes the outcomes of the foreign steps (JSON binding, `Produce`, the delivery report), the fresh uuid and the clock as inputs. It returns the event built, the message produced, whether the delivery channel was read, and the HTTP response.
- `KitchenService`: the consume loop as the class `KitchenConsumer`, with fields `running`, `effects` and `committed`. `Run` executes the `for run` loop over a script of ticks. Each tick is either the shutdown signal or one `Poll` result; a message also carries whether `CommitMessage` succeeded. The new state is tied to the specification functions `Consumed`, `Trace` and `Committed`. Lemmas about those functions state the promised behaviour.
- `Auth`: `AuthMiddleware` as a function from the `Authorization` header to an outcome: the token handed to the parser, the context keys, and abort-or-next. JWT decoding and signature checking form an oracle, `Jwt`. `GenerateToken` takes the time as a parameter.

## Model

| member | source | states |
|---|---|---|
| Avro.ZigZag | cmd/order-service/main.go:26-28 | the code of a non-negative value is even and the code of a negative value is odd |
| Avro.ZigZagInverse | cmd/order-service/main.go:26-28 | zig-zag coding and decoding are mutually inverse on all integers and all naturals |
| Avro.ZigZagRange | cmd/order-service/main.go:26-28 | a value lies in [-half, half) exactly when its code is below 2*half, so 32/64-bit values are exactly those with 32/64-bit codes |
| Avro.WriteVarint | cmd/order-service/main.go:96 | a varint is non-empty, its last byte has the high bit clear and every other byte has it set |
| Avro.ReadVarint | cmd/kitchen-service/main.go:79 | a read value is below 128^budget and consumes at least one byte, leaving a suffix of the input; empty input is Truncated |
| Avro.VarintRoundTrip | cmd/kitchen-service/main.go:79 | reading a written varint within its byte budget gives the number back and leaves exactly the bytes that followed |
| Avro.VarintLength | cmd/order-service/main.go:96 | a number below 128^k is written in at most k bytes |
| Avro.ReadVarintAppend | cmd/kitchen-service/main.go:79 | bytes appended after a readable varint do not change the value read and are left over |
| Avro.WriteInt | cmd/order-service/main.go:96 | an `int` is one varint (high bit set on every byte but the last, clear on the last) of at most five bytes for every 32-bit value; its inverse is ReadInt (IntRoundTrip) |
| Avro.WriteLong | cmd/order-service/main.go:96 | a `long` is one varint (high bit set on every byte but the last, clear on the last) of at most ten bytes for every 64-bit value; its inverse is ReadLong (LongRoundTrip) |
| Avro.WriteString | cmd/order-service/main.go:96 | a `string` ends with its own bytes, after a length prefix of at most ten bytes; its inverse is ReadString (StringRoundTrip) |
| Avro.ReadInt | cmd/kitchen-service/main.go:79 | a decoded `int` fits 32 bits and the reader consumes input |
| Avro.ReadLong | cmd/kitchen-service/main.go:79 | a decoded `long` fits 64 bits and the reader consumes input |
| Avro.ReadString | cmd/kitchen-service/main.go:79 | a decoded string's length fits a `long` and the reader consumes input |
| Avro.Pow128Bounds | cmd/order-service/main.go:26-28 | five varint bytes cover every 32-bit code and ten cover every 64-bit code |
| Avro.IntRoundTrip | cmd/order-service/main.go:26 | every 32-bit value written as `int` reads back, whatever follows |
| Avro.LongRoundTrip | cmd/order-service/main.go:28 | every 64-bit value written as `long` reads back, whatever follows |
| Avro.StringRoundTrip | cmd/order-service/main.go:24-25 | every byte string whose length fits a `long` reads back, whatever follows |
| Avro.ReadIntAppend | cmd/kitchen-service/main.go:79 | trailing bytes do not change a successful `int` read |
| Avro.ReadLongAppend | cmd/kitchen-service/main.go:79 | trailing bytes do not change a successful `long` read |
| Avro.ReadStringAppend | cmd/kitchen-service/main.go:79 | trailing bytes do not change a successful `string` read |
| Avro.WriteValue | cmd/order-service/main.go:96 | every value takes at least one byte; its inverse is ReadValue (ValueRoundTrip) |
| Avro.ReadValue | cmd/kitchen-service/main.go:79 | a value read for a schema type conforms to that type and the reader consumes input |
| Avro.ValueRoundTrip | cmd/order-service/main.go:96 | a conforming value written and read back with its type is the same value |
| Avro.ReadValueAppend | cmd/kitchen-service/main.go:79 | trailing bytes do not change a successful value read |
| Avro.WriteRecord | cmd/order-service/main.go:96 | a record takes at least one byte per value and starts with its first value's encoding; its inverse is ReadRecord (RecordRoundTrip) |
| Avro.ReadRecord | cmd/kitchen-service/main.go:79 | the values read conform field by field to the schema; a non-empty record consumes input |
| Avro.RecordRoundTrip | cmd/order-service/main.go:19-30 | a record of conforming values written in schema order reads back as the same values, leaving what followed |
| Avro.ReadRecordAppend | cmd/kitchen-service/main.go:79 | bytes appended after a readable record do not change the values read and are left over |
| Avro.RecordPrefixRejected | cmd/kitchen-service/main.go:79-83 | no strict prefix of a conforming record's encoding can be read as a record |
| OrderEvent.ValuesOf | cmd/order-service/main.go:37-43 | binding by tag succeeds exactly when every schema field has a struct field of that tag whose value its type can carry, and the i-th value is that field's value |
| OrderEvent.ValuesOfSchema | cmd/order-service/main.go:19-43 | for OrderCreated, tag binding succeeds exactly when the event is representable, and yields the five fields in schema order |
| OrderEvent.AssignSpec | cmd/kitchen-service/main.go:79 | storing a decoded value by tag fails when the struct has no field of that tag and kind, and otherwise sets that field to the value and leaves every other field as it was |
| OrderEvent.AssignAllSpec | cmd/kitchen-service/main.go:79 | storing a record's values by tag succeeds exactly when every value has a field of its kind; untagged fields keep their value, and with distinct tags each tagged field holds its value |
| OrderEvent.AssignSchema | cmd/kitchen-service/main.go:27-33 | storing values of the schema's types into the zero struct by tag fills all five fields |
| OrderEvent.Marshal | cmd/order-service/main.go:96-100 | encoding fails exactly when the amount is outside 32 bits, the timestamp outside 64 bits or a string length outside 64 bits |
| OrderEvent.Unmarshal | cmd/kitchen-service/main.go:79-83 | a decoded event is always one the schema can carry |
| OrderEvent.MarshalRecord | cmd/order-service/main.go:96 | a representable event is written as the Avro record of its five struct values taken in schema order |
| OrderEvent.MarshalFieldOrder | cmd/order-service/main.go:19-30 | the encoding is order_id, store_id, total_amount_cents, status, created_at encodings concatenated |
| OrderEvent.RoundTrip | cmd/kitchen-service/main.go:79 | decoding the encoding of a representable event gives the event back, whatever bytes follow |
| OrderEvent.TruncatedRejected | cmd/kitchen-service/main.go:79-83 | every strict prefix of an encoding, including the empty one, fails to decode |
| OrderEvent.EmptyRejected | cmd/kitchen-service/main.go:79-83 | zero-length input does not decode |
| OrderEvent.MarshalInjective | cmd/order-service/main.go:96 | no other event has the same encoding as a representable event |
| OrderService.NewEvent | cmd/order-service/main.go:86-93 | the event built from the request can be encoded exactly when the id and store lengths fit a long, the amount an Avro int and the time a long; its fields are stated by CreateOrder's ensures |
| OrderService.CreateOrder | cmd/order-service/main.go:79-128 | a bind failure answers 400 before any event is built or produced; the event copies store and amount, uses the fresh id and the time, and has status NEW; only an encodable event is produced, on the topic, keyed by its order id; the delivery report is read only after Produce succeeded; 202 with (id, "accepted", offset) exactly when every step succeeded, otherwise 500 with an error body naming the failed step: "serialization failed", "kafka produce failed", or the delivery report's own error text |
| OrderService.AcceptedMessageDecodes | cmd/order-service/main.go:86-127 | an accepted order's message key is the id returned to the client, and its value decodes to exactly the event built from the request |
| OrderService.AcceptedIff | cmd/order-service/main.go:79-128 | an order is accepted exactly when binding succeeds with representable fields, Produce accepts and the delivery report has no error |
| OrderService.BindFailureStops | cmd/order-service/main.go:81-84 | after a bind failure nothing else (uuid, clock, producer, delivery) influences the outcome |
| OrderService.MarshalFailureStops | cmd/order-service/main.go:96-100 | after a serialization failure neither Produce nor the delivery report influences the outcome |
| OrderService.ProduceFailureStops | cmd/order-service/main.go:104-113 | after a failed Produce the delivery report is never consulted |
| KitchenService.Consumed | cmd/kitchen-service/main.go:63-69 | the loop takes at most the whole script |
| KitchenService.KitchenConsumer.constructor | cmd/kitchen-service/main.go:63 | a new consumer has not started, prepared nothing and committed nothing |
| KitchenService.KitchenConsumer.Turn | cmd/kitchen-service/main.go:65-97 | one loop iteration: a signal clears `running`; a poll appends its effects; only a decodable message whose commit succeeded extends `committed` |
| KitchenService.KitchenConsumer.Run | cmd/kitchen-service/main.go:63-99 | the loop takes exactly Consumed(script) ticks, is still running exactly when no signal was seen, and its effects and commits are Trace(script) and Committed(Trace(script)) appended to the old state |
| KitchenService.PollEffects | cmd/kitchen-service/main.go:75-97 | only a message that decodes has effects: its order is prepared (the very order the bytes decode to) and then its commit is attempted, with the poll's outcome |
| KitchenService.CommittedAppend | cmd/kitchen-service/main.go:90 | the commits of two runs of effects are the commits of each, concatenated |
| KitchenService.PollEffectsCommitted | cmd/kitchen-service/main.go:76-93 | one poll commits its message exactly when the message decodes and its commit succeeds |
| KitchenService.CommittedInPollOrder | cmd/kitchen-service/main.go:70-93 | the committed sequence is exactly the successfully decoded and committed messages, in the order they were polled |
| KitchenService.CommittingMessagesMembers | cmd/kitchen-service/main.go:79-93 | a message is committed exactly when some polled tick carried it, it decoded and its commit succeeded |
| KitchenService.PreparedThenCommittedAppend | cmd/kitchen-service/main.go:86-90 | the prepare-then-commit ordering survives concatenation of runs |
| KitchenService.TracePreparesThenCommits | cmd/kitchen-service/main.go:79-90 | every commit attempt comes right after the preparation of the order its message decodes to, and every prepared order is followed by its commit attempt |
| KitchenService.StopsOnlyAtSignal | cmd/kitchen-service/main.go:63-69 | with a signal in the script the loop takes exactly the ticks up to and including the first signal; without one it takes all of them |
| KitchenService.NothingAfterSignal | cmd/kitchen-service/main.go:66-69 | whatever follows a signal is never polled and changes neither the effects nor the ticks taken |
| KitchenService.QuietTick | cmd/kitchen-service/main.go:70-73 | an empty poll, a Kafka error, an ignored event or an undecodable message has no effect and the loop goes on |
| KitchenService.FailedCommit | cmd/kitchen-service/main.go:90-93 | a failed commit is attempted but commits nothing, and the loop goes on |
| Auth.ParseWithClaims | pkg/auth/middleware.go:52-59 | parsing succeeds exactly when the token decodes, its signing method is HMAC and the signature checks out, and then yields the decoded token |
| Auth.TrimPrefix | pkg/auth/middleware.go:46-47 | for a non-empty prefix the string changes exactly when the prefix is there, and then exactly one copy of it is removed |
| Auth.AuthMiddleware | pkg/auth/middleware.go:37-73 | an empty header aborts 401 "Authorization header required"; a header without "Bearer " aborts 401 "Bearer token required"; the parser sees the header with one "Bearer " removed; a token the parser refuses aborts 401 "Invalid token"; claims of another type abort 401 "Invalid token claims"; the handler runs exactly when parsing succeeds with CustomClaims, and then with userID and role set from them; every abort is 401 and sets no key |
| Auth.NonHmacRejected | pkg/auth/middleware.go:53-55 | a token with a non-HMAC signing method aborts 401 "Invalid token", whatever its signature and claims |
| Auth.PrefixStrippedOnce | pkg/auth/middleware.go:46 | a doubled "Bearer " prefix reaches the parser with one copy left |
| Auth.GenerateToken | pkg/auth/middleware.go:23-32 | an HS256 token with the given user id and role, issuer "global-order-platform", and an expiry in whole seconds within the second of now + 24h |
| Auth.GeneratedTokenAccepted | pkg/auth/middleware.go:23-73 | a generated token presented as "Bearer <token>", while its signature and expiry are valid, passes the middleware with userID and role it was issued for |

Determinism of the encoding holds by construction: `OrderEvent.Marshal` is a function of the event alone.

## Left out

- Kafka client internals are not modelled: `Produce`, the delivery channel, `Poll`, `CommitMessage`, acks and idempotence, partition assignment and offset reset. They are a foreign library and the network, so they appear only as scripted outcomes (`ProduceResult`, `DeliveryReport`, `PollResult`).
- `ShouldBindJSON` and its `binding:"required"` semantics are foreign. Binding is an input whose outcome is either a request or an error message.
- JWT encoding, HMAC-SHA256 signing (`SignedString`) and verification are foreign cryptography. `Auth.Jwt` is an oracle; `GenerateToken` returns the token to be signed, not its signed string.
- `uuid.New`, `time.Now` and the Authorization header's retrieval are parameters. `createOrder` takes milliseconds since the epoch; `GenerateToken` takes nanoseconds.
- The signal channel and the `select` are concurrency. The signal is a tick of the script. The loop also stops when the script runs out, which stands for "no more events observed".
- The float64 dollar formatting print at cmd/kitchen-service/main.go:86-87 is output only. It is modelled as a `Prepared(order)` effect.
- `avro.Parse` of the schema text and the startup, `log.Fatal`, logging and `/health` paths are not modelled. The schema is one constant shared by both services, since the two declarations are identical.
- UTF-8 validity is not modelled. Event strings are byte sequences.
- OrderEvent.Marshal: follows the Avro specification, so an amount outside 32 bits is rejected. The hamba/avro library's own behaviour on a Go `int` wider than an Avro `int` is not part of this model.
- OrderEvent.Unmarshal: this is a decoder written to the Avro 1.11 specification. It rejects over-long varints, out-of-range values and input that ends inside a field, and it ignores bytes after the last field. OrderEvent.TruncatedRejected and OrderEvent.EmptyRejected hold for this decoder. The hamba/avro reader is not part of this model. If that reader reports success when input runs out, the deployed consumer could decode an empty or truncated message into a partly zero struct and commit it, and neither lemma would describe it.
- Auth.AuthMiddleware: the `OtherClaims` branch is kept because the source has it. With `&CustomClaims{}` passed to the library it may be unreachable.
- Auth.Jwt: `verified` covers both the signature and the registered time claims (`exp`), which the library checks together. Clock skew and leeway are not modelled.
