/** The parts of a node's manifest that routing and permissions read (spored/internal/manifest). */
module Manifests {
  datatype Trust = System | Developer | Trusted | StandardTrust | Untrusted

  datatype Risk = Benign | StandardRisk | Personal | Secret | Admin | Protected

  datatype Command = Command(name: string, risk: Risk)

  datatype Topic = Topic(name: string, risk: Risk)

  datatype Manifest = Manifest(id: string, trust: Trust, api: seq<Command>, topics: seq<Topic>)

  /** The fully-qualified names of the commands of node `id`, in manifest order. */
  function FqNames(id: string, api: seq<Command>): (ns: seq<string>)
    ensures |ns| == |api|
    ensures forall i :: 0 <= i < |api| ==> ns[i] == id + "." + api[i].name
  {
    seq(|api|, i requires 0 <= i < |api| => id + "." + api[i].name)
  }

  function FqTopics(id: string, topics: seq<Topic>): (ns: seq<string>)
    ensures |ns| == |topics|
    ensures forall i :: 0 <= i < |topics| ==> ns[i] == id + "." + topics[i].name
  {
    seq(|topics|, i requires 0 <= i < |topics| => id + "." + topics[i].name)
  }
}
