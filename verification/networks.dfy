/** The order in which networks are listed: named networks first, by subname, then the rest by address. */
module Networks {
  import opened GoStrings

  /**
   * `CompareSubnamesAndAddresses`, given the subname comparison it delegates to (`desec`'s
   * `CompareSubnames`, which is not part of this model): two named networks compare by their
   * first subnames, a named network precedes an unnamed one, and unnamed networks compare by
   * address in Go's string order.
   */
  function CompareSubnamesAndAddresses(
    compareSubnames: (string, string) -> bool,
    firstSubnames: seq<string>, firstAddress: string, secondSubnames: seq<string>, secondAddress: string
  ): (r: bool)
    ensures |firstSubnames| > 0 && |secondSubnames| > 0 ==> r == compareSubnames(firstSubnames[0], secondSubnames[0])
    ensures |firstSubnames| > 0 && |secondSubnames| == 0 ==> r
    ensures |firstSubnames| == 0 && |secondSubnames| > 0 ==> !r
    ensures |firstSubnames| == 0 && |secondSubnames| == 0 ==> r == Less(firstAddress, secondAddress)
  {
    var firstNamed := |firstSubnames| > 0;
    var secondNamed := |secondSubnames| > 0;
    if firstNamed && secondNamed then compareSubnames(firstSubnames[0], secondSubnames[0])
    else if firstNamed then true
    else if secondNamed then false
    else Less(firstAddress, secondAddress)
  }

  /**
   * Whenever the subname comparison is a strict order, so is the network order: it is
   * irreflexive and asymmetric on networks.
   */
  lemma NetworkOrderStrict(
    compareSubnames: (string, string) -> bool,
    subnames1: seq<string>, address1: string, subnames2: seq<string>, address2: string
  )
    requires forall x, y :: compareSubnames(x, y) ==> !compareSubnames(y, x)
    ensures !CompareSubnamesAndAddresses(compareSubnames, subnames1, address1, subnames1, address1)
    ensures CompareSubnamesAndAddresses(compareSubnames, subnames1, address1, subnames2, address2) ==>
      !CompareSubnamesAndAddresses(compareSubnames, subnames2, address2, subnames1, address1)
  {
    LessIrreflexive(address1);
    if |subnames1| == 0 && |subnames2| == 0 && Less(address1, address2) {
      LessAsymmetric(address1, address2);
    }
  }
}
