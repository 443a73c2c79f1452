/** Configuration values that several components share. */
module Config {

  /** Name resolution inside a runner's namespace: forwarded to the host, or fixed servers. */
  datatype DnsMode<Ip> = Forward | Static(servers: seq<Ip>)
}
