/**
 * Template functions that present a ZeroTier network: its display name, and the two parts of
 * its 16-digit ID, the controller's 10-digit node address and the 6-digit network number.
 */
module TmplFuncZerotier {
  import opened GoStrings

  /** `IdentifyNetwork`: the network's name, unless it is blank, in which case its ID. */
  function IdentifyNetwork(name: string, id: string): (r: string)
    ensures TrimSpace(name) != "" ==> r == name
    ensures TrimSpace(name) == "" ==> r == id
  {
    if TrimSpace(name) != "" then name else id
  }

  /** `GetNetworkHostAddress`: the first ten digits of the ID. */
  function GetNetworkHostAddress(id: string): (host: string)
    requires |id| >= 10
    ensures |host| == 10 && HasPrefix(id, host)
  {
    id[..10]
  }

  /** `GetNetworkNumber`: what follows the first ten digits of the ID. */
  function GetNetworkNumber(id: string): (number: string)
    requires |id| >= 10
    ensures |number| == |id| - 10 && HasSuffix(id, number)
  {
    id[10..]
  }

  /** The host address followed by the network number is the whole ID. */
  lemma NetworkIDParts(id: string)
    requires |id| >= 10
    ensures GetNetworkHostAddress(id) + GetNetworkNumber(id) == id
  {
  }
}
