/**
 * The broker's database: one mutable map per table, shared by the two stores. The views
 * gather the tables into the values the specifications are written over.
 */
module BrokerDatabase {
  import Registry
  import F = FoundationLedger
  import FP = FoundationProtocol
  import C = ConnectorLedger
  import CP = ConnectorProtocol

  class Database {
    var enrolled: seq<string>
    var installations: map<string, Registry.Installation>
    var fences: map<Registry.FenceKey, Registry.Fence>

    var bindings: map<F.BindingKey, F.BindingRow>
    var requests: map<FP.RequestKey, F.RequestRow>
    var receipts: map<string, F.Receipt>

    var connectorPolicies: map<C.PolicyKey, C.Policy>
    var connectorBindings: map<C.BindingKey, C.BindingRow>
    var connectorRequests: map<CP.RequestKey, C.RequestRow>
    var connectorReceipts: map<string, C.Receipt>

    ghost function Registered(): Registry.Registry
      reads `enrolled, `installations, `fences
    {
      Registry.Registry(enrolled, installations, fences)
    }

    ghost function Foundation(): F.Tables
      reads `bindings, `requests, `receipts
    {
      F.Tables(bindings, requests, receipts)
    }

    ghost function Connector(): C.Tables
      reads `connectorPolicies, `connectorBindings, `connectorRequests, `connectorReceipts
    {
      C.Tables(connectorPolicies, connectorBindings, connectorRequests, connectorReceipts)
    }

    constructor ()
      ensures Registered() == Registry.EMPTY && Foundation() == F.EMPTY && Connector() == C.EMPTY
    {
      enrolled, installations, fences := [], map[], map[];
      bindings, requests, receipts := map[], map[], map[];
      connectorPolicies, connectorBindings, connectorRequests, connectorReceipts := map[], map[], map[], map[];
    }
  }
}
