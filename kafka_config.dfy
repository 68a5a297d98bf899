/** KafkaConsumerConfig: where a failed record is dead-lettered, which
    headers its headers function adds, and how many times the container delivers a record
    whose listener throws (FixedBackOff inside DefaultErrorHandler). */
module KafkaConsumerConfig {
  import opened Utf8

  /** A record header: a key and raw bytes. */
  datatype Header = Header(key: string, value: seq<int8>)

  /** The parts of a ConsumerRecord the error handling looks at. */
  datatype ConsumerRecord = ConsumerRecord(topic: string, partition: int, offset: int, headers: seq<Header>)

  datatype TopicPartition = TopicPartition(topic: string, partition: int)

  /** The topic names of KafkaTopicProperties. */
  datatype TopicNames = TopicNames(upsertTopic: string, deleteTopic: string, upsertDlqTopic: string, deleteDlqTopic: string)

  /** KafkaTopicProperties' defaults. */
  const DefaultTopicNames := TopicNames("dms-file-upsert-events", "dms-file-delete-events",
                                        "dms-file-upsert-events-dlq", "dms-file-delete-events-dlq")

  /** The fallback destination for a record from any other topic. */
  const UnknownSourceDlq: string := "unknown-source-topic-dlq"

  /** The destination resolver given to DeadLetterPublishingRecoverer. */
  function ResolveDestination(names: TopicNames, record: ConsumerRecord): TopicPartition {
    if record.topic == names.upsertTopic then TopicPartition(names.upsertDlqTopic, record.partition)
    else if record.topic == names.deleteTopic then TopicPartition(names.deleteDlqTopic, record.partition)
    else TopicPartition(UnknownSourceDlq, record.partition)
  }

  /** What the headers function contributes to a dead-letter record: the
      original record's headers, as they are. The recoverer publishes these
      in addition to the headers it copies and the kafka_dlt-* failure
      headers it adds by itself. */
  function DeadLetterHeaders(record: ConsumerRecord): seq<Header> {
    record.headers
  }

  /** Every record has a destination in its own partition: the upsert DLQ
      for the upsert topic (checked first), the delete DLQ for the delete
      topic, and the fallback topic for anything else. */
  lemma ResolveDestinationCases(names: TopicNames, record: ConsumerRecord)
    ensures ResolveDestination(names, record).partition == record.partition
    ensures record.topic == names.upsertTopic ==> ResolveDestination(names, record).topic == names.upsertDlqTopic
    ensures record.topic != names.upsertTopic && record.topic == names.deleteTopic ==>
              ResolveDestination(names, record).topic == names.deleteDlqTopic
    ensures record.topic != names.upsertTopic && record.topic != names.deleteTopic ==>
              ResolveDestination(names, record).topic == UnknownSourceDlq
  {
  }

  /** With the default names no record is ever dead-lettered back into a
      topic the listeners consume. */
  lemma DefaultDestinationsAreNotSources(names: TopicNames, record: ConsumerRecord)
    requires names == DefaultTopicNames
    ensures ResolveDestination(names, record).topic != names.upsertTopic
    ensures ResolveDestination(names, record).topic != names.deleteTopic
  {
    var dest := ResolveDestination(names, record).topic;
    assert |names.upsertTopic| == 22 && |names.deleteTopic| == 22;
    assert |names.upsertDlqTopic| == 26 && |names.deleteDlqTopic| == 26 && |UnknownSourceDlq| == 24;
  }

  /** A Java int. */
  type Int32 = x: int | -0x8000_0000 <= x < 0x8000_0000

  /** Java int arithmetic: the result modulo 2^32, in the signed range. */
  function WrapInt32(x: int): (r: Int32)
    ensures -0x8000_0000 <= x < 0x8000_0000 ==> r == x
  {
    (x + 0x8000_0000) % 0x1_0000_0000 - 0x8000_0000
  }

  /** @Value defaults of dms.indexer.kafka.consumer.retry.max-attempts and
      .backoff-interval (milliseconds). */
  const DefaultMaxRetryAttempts: Int32 := 3
  const DefaultBackoffInterval: int := 5000

  /** A FixedBackOff: the interval between attempts and the number of
      retries allowed after the first failure. */
  datatype FixedBackOff = FixedBackOff(interval: int, maxAttempts: int)

  /** `new FixedBackOff(backoffInterval, maxRetryAttempts - 1)`, the
      subtraction being int arithmetic. */
  function ConfiguredBackOff(backoffInterval: int, maxRetryAttempts: Int32): FixedBackOff {
    FixedBackOff(backoffInterval, WrapInt32(maxRetryAttempts - 1))
  }

  /** The retries a FixedBackOff grants: its execution answers with the
      interval while fewer than maxAttempts retries were made. */
  function Retries(b: FixedBackOff): nat {
    if b.maxAttempts <= 0 then 0 else b.maxAttempts
  }

  /** Deliveries of a record whose listener keeps throwing: the first one
      and the retries. */
  function Deliveries(b: FixedBackOff): (n: nat)
    ensures n >= 1
  {
    1 + Retries(b)
  }

  /** A positive max-attempts is the total number of deliveries; zero or a
      negative value means a single delivery, except Integer.MIN_VALUE,
      whose decrement wraps to Integer.MAX_VALUE retries. The defaults give
      three deliveries 5000 ms apart. */
  lemma DeliveriesMatchMaxAttempts(backoffInterval: int, maxRetryAttempts: Int32)
    ensures maxRetryAttempts >= 1 ==> Deliveries(ConfiguredBackOff(backoffInterval, maxRetryAttempts)) == maxRetryAttempts
    ensures -0x8000_0000 < maxRetryAttempts <= 0 ==> Deliveries(ConfiguredBackOff(backoffInterval, maxRetryAttempts)) == 1
    ensures maxRetryAttempts == -0x8000_0000 ==> Deliveries(ConfiguredBackOff(backoffInterval, maxRetryAttempts)) == 0x8000_0000
    ensures ConfiguredBackOff(backoffInterval, maxRetryAttempts).interval == backoffInterval
  {
  }

  lemma DefaultDeliveries()
    ensures Deliveries(ConfiguredBackOff(DefaultBackoffInterval, DefaultMaxRetryAttempts)) == 3
    ensures ConfiguredBackOff(DefaultBackoffInterval, DefaultMaxRetryAttempts).interval == 5000
  {
    DeliveriesMatchMaxAttempts(DefaultBackoffInterval, DefaultMaxRetryAttempts);
  }

  /** How one delivery to a listener ends under MANUAL_IMMEDIATE acks. */
  datatype ListenerOutcome =
    | Acknowledged        // ack.acknowledge() was called
    | ReturnedWithoutAck  // the listener returned normally without acknowledging
    | Threw               // the listener let an exception escape

  /** What becomes of a record in the container. */
  datatype Disposition =
    | Committed(deliveries: nat)
    | DeadLettered(destination: TopicPartition, addedHeaders: seq<Header>, deliveries: nat)
    | Abandoned(deliveries: nat)  // neither committed nor dead-lettered: later acks move past it

  /** The container with DefaultErrorHandler: a delivery that throws is
      retried while the back-off allows it, and the record is then handed to
      the recoverer; a delivery that returns normally ends the record's
      handling. `outcome(k)` is how delivery k ends. */
  function Dispose(names: TopicNames, b: FixedBackOff, record: ConsumerRecord, outcome: nat -> ListenerOutcome,
                   delivery: nat): (d: Disposition)
    requires delivery < Deliveries(b)
    ensures d.Committed? || d.Abandoned? ==> delivery < d.deliveries <= Deliveries(b)
    ensures d.DeadLettered? ==> d.deliveries == Deliveries(b)
    decreases Deliveries(b) - delivery
  {
    match outcome(delivery)
    case Acknowledged => Committed(delivery + 1)
    case ReturnedWithoutAck => Abandoned(delivery + 1)
    case Threw =>
      if delivery + 1 < Deliveries(b) then Dispose(names, b, record, outcome, delivery + 1)
      else DeadLettered(ResolveDestination(names, record), DeadLetterHeaders(record), delivery + 1)
  }

  /** A listener that never lets an exception escape ends every record
      after its first delivery: it is never retried and never dead-lettered,
      and a delivery that did not acknowledge leaves the record abandoned. */
  lemma NonThrowingListenerIsNeverRetried(names: TopicNames, b: FixedBackOff, record: ConsumerRecord,
                                          outcome: nat -> ListenerOutcome)
    requires forall k :: outcome(k) != Threw
    ensures var d := Dispose(names, b, record, outcome, 0);
            && d.deliveries == 1
            && !d.DeadLettered?
            && (d.Abandoned? <==> outcome(0) == ReturnedWithoutAck)
  {
  }

  /** A listener that acknowledges or throws gets every record either
      committed or, after all deliveries failed, dead-lettered to the
      resolved destination, the headers function contributing the original
      headers. */
  lemma {:induction false} ThrowingListenerNeverAbandons(names: TopicNames, b: FixedBackOff, record: ConsumerRecord,
                                                         outcome: nat -> ListenerOutcome, delivery: nat)
    requires delivery < Deliveries(b)
    requires forall k :: outcome(k) != ReturnedWithoutAck
    ensures var d := Dispose(names, b, record, outcome, delivery);
            && !d.Abandoned?
            && (d.Committed? ==> outcome(d.deliveries - 1) == Acknowledged)
            && (d.DeadLettered? <==> forall k :: delivery <= k < Deliveries(b) ==> outcome(k) == Threw)
            && (d.DeadLettered? ==>
                  d.destination == ResolveDestination(names, record) && d.addedHeaders == record.headers)
    decreases Deliveries(b) - delivery
  {
    if outcome(delivery) == Threw && delivery + 1 < Deliveries(b) {
      ThrowingListenerNeverAbandons(names, b, record, outcome, delivery + 1);
      var d := Dispose(names, b, record, outcome, delivery);
      if forall k :: delivery + 1 <= k < Deliveries(b) ==> outcome(k) == Threw {
        forall k | delivery <= k < Deliveries(b) ensures outcome(k) == Threw {
          if k == delivery {
          } else {
            assert delivery + 1 <= k;
          }
        }
      }
    }
  }
}
