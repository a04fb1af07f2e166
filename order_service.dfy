/** The order service's POST /orders handler (createOrder): bind the request, build
    the OrderCreated event, encode it, hand it to the Kafka producer keyed by the order
    id, wait for the delivery report and answer.

    Binding, producing and the delivery report belong to foreign libraries and the
    network, the fresh uuid and the clock are nondeterministic: all of them come in as
    parameters. Encoding is the codec's Marshal. The handler's effects are returned as an
    Outcome: the event it built, the message it handed to the producer, whether it waited
    on the delivery channel, and the HTTP response it wrote. */
module OrderService {
  import opened Wrappers
  import opened Avro
  import opened OrderEvent

  const Topic: string := "global.orders.v1"

  /** The bytes of the Go string "NEW". */
  const StatusNew: seq<byte> := [0x4E, 0x45, 0x57]

  const HttpAccepted := 202
  const HttpBadRequest := 400
  const HttpInternalServerError := 500

  datatype OrderRequest = OrderRequest(storeId: seq<byte>, totalAmountCents: int)

  /** What ShouldBindJSON did with the request body. */
  datatype BindResult = BindFailed(message: string) | Bound(request: OrderRequest)

  /** What producer.Produce returned: nil (the message was queued) or an error. */
  datatype ProduceResult = Enqueued | ProduceFailed

  /** The message read from the delivery channel: its TopicPartition carries an error or
      the offset the broker assigned. */
  datatype DeliveryReport = Delivered(offset: int) | DeliveryFailed(message: string)

  datatype ProducerMessage = ProducerMessage(topic: string, key: seq<byte>, value: seq<byte>)

  datatype Body =
    | ErrorBody(error: string)
    | AcceptedBody(orderId: seq<byte>, status: string, offset: int)

  datatype Response = Response(code: int, body: Body)

  datatype Outcome = Outcome(
    event: Option<OrderCreated>,       // the event built, if the handler got that far
    produced: Option<ProducerMessage>, // the message handed to producer.Produce
    awaited: bool,                     // whether it read from the delivery channel
    response: Response)

  /** The event literal of createOrder. It can be encoded exactly when the order id's and
      the store id's lengths fit a long, the amount fits an Avro int and the time a long;
      the status "NEW" always fits. */
  function NewEvent(request: OrderRequest, orderId: seq<byte>, nowMillis: int): (e: OrderCreated)
    ensures Marshal(e).Success? <==>
      IsInt64(|orderId|) && IsInt64(|request.storeId|) && IsInt32(request.totalAmountCents)
      && IsInt64(nowMillis)
  {
    OrderCreated(orderId, request.storeId, request.totalAmountCents, StatusNew, nowMillis)
  }

  /** createOrder, with `newId` standing for uuid.New().String() and `nowMillis` for
      time.Now().UnixMilli(). Each failing step answers and stops: nothing after it runs. */
  function CreateOrder(bind: BindResult, newId: seq<byte>, nowMillis: int,
                       produce: ProduceResult, delivery: DeliveryReport): (r: Outcome)
    // A bind failure is a 400 before any event is built, encoded or produced.
    ensures bind.BindFailed? ==>
      r == Outcome(None, None, false, Response(HttpBadRequest, ErrorBody(bind.message)))
    // The event copies the request, carries the fresh id and the time, and is always NEW.
    ensures bind.Bound? ==>
      && r.event.Some?
      && r.event.value.orderId == newId && r.event.value.status == StatusNew
      && r.event.value.storeId == bind.request.storeId
      && r.event.value.totalAmountCents == bind.request.totalAmountCents
      && r.event.value.createdAt == nowMillis
    // Only an encodable event is produced: keyed by its order id, valued by its encoding.
    ensures r.produced.Some? <==> r.event.Some? && Marshal(r.event.value).Success?
    ensures r.produced.Some? ==>
      r.produced.value == ProducerMessage(Topic, r.event.value.orderId, Marshal(r.event.value).value)
    // The delivery report is awaited only after Produce accepted the message.
    ensures r.awaited <==> r.produced.Some? && produce.Enqueued?
    // Accepted exactly when every step succeeded; the body echoes the id and the offset.
    ensures r.response.code == HttpAccepted <==> r.awaited && delivery.Delivered?
    ensures r.response.code == HttpAccepted ==>
      r.response.body == AcceptedBody(newId, "accepted", delivery.offset)
    // Every other answer is an error: 400 for the request, 500 for the pipeline.
    ensures r.response.code != HttpAccepted ==>
      && r.response.body.ErrorBody?
      && r.response.code == (if bind.BindFailed? then HttpBadRequest else HttpInternalServerError)
    // Each 500 names its step; a failed delivery passes on the broker's own error text.
    ensures bind.Bound? && r.produced.None? ==>
      r.response.body == ErrorBody("serialization failed")
    ensures r.produced.Some? && produce.ProduceFailed? ==>
      r.response.body == ErrorBody("kafka produce failed")
    ensures r.awaited && delivery.DeliveryFailed? ==>
      r.response.body == ErrorBody(delivery.message)
  {
    match bind
    case BindFailed(message) =>
      Outcome(None, None, false, Response(HttpBadRequest, ErrorBody(message)))
    case Bound(request) =>
      var event := NewEvent(request, newId, nowMillis);
      match Marshal(event)
      case Failure(_) =>
        Outcome(Some(event), None, false,
                Response(HttpInternalServerError, ErrorBody("serialization failed")))
      case Success(data) =>
        var message := ProducerMessage(Topic, newId, data);
        match produce
        case ProduceFailed =>
          Outcome(Some(event), Some(message), false,
                  Response(HttpInternalServerError, ErrorBody("kafka produce failed")))
        case Enqueued =>
          match delivery
          case DeliveryFailed(error) =>
            Outcome(Some(event), Some(message), true,
                    Response(HttpInternalServerError, ErrorBody(error)))
          case Delivered(offset) =>
            Outcome(Some(event), Some(message), true,
                    Response(HttpAccepted, AcceptedBody(newId, "accepted", offset)))
  }

  /** An accepted order was produced as bytes that decode back to exactly the event the
      client's order id names: the request's store and amount, status NEW, the time. */
  lemma AcceptedMessageDecodes(bind: BindResult, newId: seq<byte>, nowMillis: int,
                               produce: ProduceResult, delivery: DeliveryReport)
    ensures var r := CreateOrder(bind, newId, nowMillis, produce, delivery);
      r.response.code == HttpAccepted ==>
      r.produced.Some? && r.produced.value.key == newId
      && r.response.body.orderId == r.produced.value.key
      && Unmarshal(r.produced.value.value)
         == Success(OrderCreated(newId, bind.request.storeId, bind.request.totalAmountCents,
                                 StatusNew, nowMillis))
  {
    var r := CreateOrder(bind, newId, nowMillis, produce, delivery);
    if r.response.code == HttpAccepted {
      var e := NewEvent(bind.request, newId, nowMillis);
      RoundTrip(e, []);
      assert r.produced.value.value + [] == r.produced.value.value;
    }
  }

  /** For an order id whose length fits a long (a uuid string is 36 bytes), an order is
      accepted exactly when the request bound with a store id whose length fits a long
      and an amount that fits an Avro int, the timestamp fits a long, Produce took the
      message and the broker reported it delivered. */
  lemma AcceptedIff(bind: BindResult, newId: seq<byte>, nowMillis: int,
                    produce: ProduceResult, delivery: DeliveryReport)
    requires IsInt64(|newId|)
    ensures CreateOrder(bind, newId, nowMillis, produce, delivery).response.code == HttpAccepted
      <==> bind.Bound? && IsInt64(|bind.request.storeId|)
           && IsInt32(bind.request.totalAmountCents) && IsInt64(nowMillis)
           && produce.Enqueued? && delivery.Delivered?
  {
  }

  /** Nothing after a failed step influences the answer: a bind failure does not even
      draw a uuid or read the clock, and a failed Produce never reads the delivery report. */
  lemma BindFailureStops(message: string, id1: seq<byte>, now1: int, p1: ProduceResult,
                         d1: DeliveryReport, id2: seq<byte>, now2: int, p2: ProduceResult,
                         d2: DeliveryReport)
    ensures CreateOrder(BindFailed(message), id1, now1, p1, d1)
         == CreateOrder(BindFailed(message), id2, now2, p2, d2)
  {
  }

  lemma MarshalFailureStops(request: OrderRequest, newId: seq<byte>, nowMillis: int,
                            p1: ProduceResult, d1: DeliveryReport,
                            p2: ProduceResult, d2: DeliveryReport)
    requires Marshal(NewEvent(request, newId, nowMillis)).Failure?
    ensures CreateOrder(Bound(request), newId, nowMillis, p1, d1)
         == CreateOrder(Bound(request), newId, nowMillis, p2, d2)
  {
  }

  lemma ProduceFailureStops(bind: BindResult, newId: seq<byte>, nowMillis: int,
                            d1: DeliveryReport, d2: DeliveryReport)
    ensures CreateOrder(bind, newId, nowMillis, ProduceFailed, d1)
         == CreateOrder(bind, newId, nowMillis, ProduceFailed, d2)
  {
  }
}
