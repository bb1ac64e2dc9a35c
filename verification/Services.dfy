/**
 * The value types the discovery and backend code pass between each other:
 * a Server endpoint and a Service with its set of Servers.
 */
module Services {

  /** An endpoint: a resolved IP address (never a host name) and a port. */
  datatype Server = Server(ip: string, port: int)

  /**
   * A routable service: its dotted name, the label of the discovery source
   * that produced it, its exposed port and protocol, and its endpoints.
   */
  datatype Service = Service(name: string, source: string, port: int, protocol: string, servers: set<Server>)
}
