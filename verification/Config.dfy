/** The checks that configuration loading makes on the Kafka section. */
module Config {
  import opened Domain
  import opened BrokerLog
  import opened ConsumerService
  import opened BatchedWriter

  datatype KafkaConfig = KafkaConfig(
    brokers: seq<string>, requiredAcks: string, maxBatchSize: int, produceMode: string, consumer: ConsumerConfig)

  datatype Fault = NoBrokers | BadAcks | BadBatchSize | BadMode | BadDefaultLimit | BadMaxLimit | BadMaxWait

  /** Which settings each fault objects to. */
  predicate Faulty(c: KafkaConfig, f: Fault) {
    match f
    case NoBrokers => c.brokers == []
    case BadAcks => ToLower(c.requiredAcks) !in {"all", "one", "none"}
    case BadBatchSize => c.maxBatchSize < 1
    case BadMode => ToLower(c.produceMode) !in {"batched", "sync"}
    case BadDefaultLimit => c.consumer.defaultLimit < 1
    case BadMaxLimit => c.consumer.maxLimit < c.consumer.defaultLimit
    case BadMaxWait => c.consumer.maxWait < c.consumer.defaultWait
  }

  /** validate collects every fault instead of stopping at the first. */
  method Validate(c: KafkaConfig) returns (errs: seq<Fault>)
    ensures forall f :: f in errs <==> Faulty(c, f)
  {
    errs := [];
    if |c.brokers| == 0 { errs := errs + [NoBrokers]; }
    if ToLower(c.requiredAcks) !in {"all", "one", "none"} { errs := errs + [BadAcks]; }
    if c.maxBatchSize < 1 { errs := errs + [BadBatchSize]; }
    if ToLower(c.produceMode) !in {"batched", "sync"} { errs := errs + [BadMode]; }
    if c.consumer.defaultLimit < 1 { errs := errs + [BadDefaultLimit]; }
    if c.consumer.maxLimit < c.consumer.defaultLimit { errs := errs + [BadMaxLimit]; }
    if c.consumer.maxWait < c.consumer.defaultWait { errs := errs + [BadMaxWait]; }
  }

  /** An accepted configuration starts: its acks setting is one the producers parse, and its limits are the
      ones under which every consume request is clamped into range. */
  lemma AcceptedConfigurationWorks(c: KafkaConfig)
    requires forall f :: !Faulty(c, f)
    ensures var acks := ParseRequiredAcks(ToLower(c.requiredAcks));
            && acks.Some?
            && (acks.value == AcksNone <==> ToLower(c.requiredAcks) == "none")
            && (acks.value == AcksOne <==> ToLower(c.requiredAcks) == "one")
    ensures ValidLimits(c.consumer)
    ensures forall v :: 1 <= Clamp(v, c.consumer.defaultLimit, c.consumer.maxLimit) <= c.consumer.maxLimit
  {
    assert !Faulty(c, BadAcks) && !Faulty(c, BadDefaultLimit) && !Faulty(c, BadMaxLimit) && !Faulty(c, BadMaxWait);
    ClampRange(c.consumer.defaultLimit, c.consumer.maxLimit);
  }

  /** Exactly which settings are accepted. */
  lemma AcceptedSettings(c: KafkaConfig)
    ensures (forall f :: !Faulty(c, f)) <==>
            && |c.brokers| > 0 && c.maxBatchSize > 0
            && ToLower(c.requiredAcks) in {"all", "one", "none"} && ToLower(c.produceMode) in {"batched", "sync"}
            && 0 < c.consumer.defaultLimit <= c.consumer.maxLimit && c.consumer.defaultWait <= c.consumer.maxWait
  {
    if forall f :: !Faulty(c, f) {
      assert !Faulty(c, NoBrokers) && !Faulty(c, BadAcks) && !Faulty(c, BadBatchSize) && !Faulty(c, BadMode);
      assert !Faulty(c, BadDefaultLimit) && !Faulty(c, BadMaxLimit) && !Faulty(c, BadMaxWait);
    }
  }

  /** A default wait of zero is accepted, and then a request that asks for no timeout waits for nothing. */
  lemma ZeroWaitIsAccepted(c: KafkaConfig)
    requires forall f :: !Faulty(c, f)
    ensures var zero := c.(consumer := c.consumer.(defaultWait := 0, maxWait := 30));
            (forall f :: !Faulty(zero, f)) && Clamp(0, zero.consumer.defaultWait, zero.consumer.maxWait) == 0
  {
    var zero := c.(consumer := c.consumer.(defaultWait := 0, maxWait := 30));
    forall f ensures !Faulty(zero, f) {
      assert !Faulty(c, f);
    }
  }
}
