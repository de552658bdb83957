/**
 * The consumer settings of the topic dump: the fixed (cluster, environment)
 * to bootstrap-server table, the consumer group derived from the topic, and
 * the offset-reset policy. The Kafka client itself is not modelled; the
 * model stops at the configuration it would be given.
 */
module DumpConsumer {
  import opened Wrappers

  /** The only two (cluster, environment) pairs the dump knows. */
  const BootstrapTable: map<(string, string), string> := map[
    ("PHY-PROD-CL1", "PROD") := "phy-prod-kafka:9093",
    ("VM-UAT-CL2", "UAT") := "vm-uat-kafka:9093"
  ]

  const GroupPrefix: string := "kafka-dump-"
  const OffsetReset: string := "earliest"

  /** The dictionary lookup: `None` where Python raises `KeyError`. */
  function Bootstrap(cluster: string, env: string): (r: Option<string>)
    ensures r.Some? <==> (cluster, env) == ("PHY-PROD-CL1", "PROD") || (cluster, env) == ("VM-UAT-CL2", "UAT")
    ensures (cluster, env) == ("PHY-PROD-CL1", "PROD") ==> r == Some("phy-prod-kafka:9093")
    ensures (cluster, env) == ("VM-UAT-CL2", "UAT") ==> r == Some("vm-uat-kafka:9093")
  {
    if (cluster, env) in BootstrapTable then Some(BootstrapTable[(cluster, env)]) else None
  }

  /** What the consumer is built with and subscribed to. */
  datatype ConsumerConfig = ConsumerConfig(
    bootstrapServers: string, groupId: string, autoOffsetReset: string, topics: seq<string>)

  datatype ConsumerError = UnknownCluster(cluster: string, env: string)

  function GroupId(topic: string): string {
    GroupPrefix + topic
  }

  /** `build_consumer`: fails on an unknown pair, otherwise configures a
      consumer of the one topic in its own group, reading from the earliest
      offset. */
  function BuildConsumer(cluster: string, env: string, topic: string): (r: Result<ConsumerConfig, ConsumerError>)
    ensures r.Failure? <==> Bootstrap(cluster, env).None?
    ensures r.Failure? ==> r.error == UnknownCluster(cluster, env)
    ensures r.Success? ==>
      && r.value.bootstrapServers == Bootstrap(cluster, env).value
      && |r.value.groupId| == |GroupPrefix| + |topic|
      && r.value.groupId[..|GroupPrefix|] == GroupPrefix
      && r.value.groupId[|GroupPrefix|..] == topic
      && r.value.autoOffsetReset == OffsetReset
      && r.value.topics == [topic]
  {
    match Bootstrap(cluster, env)
    case None => Failure(UnknownCluster(cluster, env))
    case Some(servers) => Success(ConsumerConfig(servers, GroupId(topic), OffsetReset, [topic]))
  }

  /** Different topics never share a consumer group, and the topic can be read
      back from the group id. */
  lemma GroupIdInjective(t1: string, t2: string)
    ensures GroupId(t1) == GroupId(t2) <==> t1 == t2
    ensures GroupId(t1)[|GroupPrefix|..] == t1
  {
    if GroupId(t1) == GroupId(t2) {
      assert t1 == GroupId(t1)[|GroupPrefix|..] == GroupId(t2)[|GroupPrefix|..] == t2;
    }
  }

  /** The consumer's settings depend on the cluster and environment only
      through the bootstrap server: a successful build on two pairs with the
      same topic differs at most there. */
  lemma SameTopicSameGroup(c1: string, e1: string, c2: string, e2: string, topic: string)
    requires BuildConsumer(c1, e1, topic).Success? && BuildConsumer(c2, e2, topic).Success?
    ensures BuildConsumer(c1, e1, topic).value.(bootstrapServers := "")
         == BuildConsumer(c2, e2, topic).value.(bootstrapServers := "")
  {
  }
}
