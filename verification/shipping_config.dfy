/**
 The shipping configuration: the default provider, which an environment
 variable may override, and the table of providers with their display
 names and fee parameters.
 */
module ShippingConfig {
  import opened Wrappers
  import opened Logistics

  /** One row of the provider table. */
  datatype ProviderEntry = ProviderEntry(carrier: Carrier, name: string, baseFee: int, feePerKg: int)

  /** The provider table, by key. */
  const Providers: map<string, ProviderEntry> := map[
    "black_cat" := ProviderEntry(BlackCat, "黑貓貨運", 100, 10),
    "hsinchu" := ProviderEntry(Hsinchu, "新竹貨運", 80, 15),
    "post_office" := ProviderEntry(PostOffice, "郵局", 70, 20)]

  /** The default provider: the environment's value when the variable is
      set, whatever it is, and `black_cat` otherwise. */
  function DefaultProvider(env: Option<string>): (r: string)
    ensures env.None? ==> r == "black_cat" && r in Providers
    ensures env.Some? ==> r == env.value
  {
    match env
    case None => "black_cat"
    case Some(v) => v
  }

  /** The table has exactly the three providers. */
  lemma ProviderKeys()
    ensures Providers.Keys == {"black_cat", "hsinchu", "post_office"}
    ensures |Providers| == 3
  {
  }

  /** An overriding value is not checked against the table. */
  lemma OverrideUnchecked()
    ensures DefaultProvider(Some("dhl")) !in Providers
  {
  }

  /** Every row's fee parameters reproduce its carrier's fee for every
      weight, and the carriers of the rows are all different. */
  lemma TableMatchesServices(key: string, w: int)
    requires key in Providers
    ensures CalculateFee(Providers[key].carrier, w) == Providers[key].baseFee + w * Providers[key].feePerKg
    ensures Providers[key].feePerKg == Step(Providers[key].carrier)
    ensures forall k :: k in Providers && Providers[k].carrier == Providers[key].carrier ==> k == key
  {
  }
}
