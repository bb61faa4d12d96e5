/** The data tables of constants.tsx that decisions depend on: the agent
    identifiers and the credit packages on sale. */
module Catalog {
  import opened Wrappers
  import opened Records

  const AgentIds: seq<string> :=
    ["mouctar-10", "job", "polyglot", "lawyer", "education",
     "admin", "travel", "housing", "health"]

  const CreditPackages: seq<CreditPackage> := [
    CreditPackage("pack_starter", 500, 5.0, None),
    CreditPackage("pack_pro", 1500, 12.0, Some(300)),
    CreditPackage("pack_business", 5000, 35.0, Some(1500))
  ]

  /** `CREDIT_PACKAGES.find(p => p.id === id)` over any package list. */
  function FindPackageIn(pkgs: seq<CreditPackage>, id: string): (r: Option<CreditPackage>)
    ensures r.Some? ==> r.value in pkgs && r.value.id == id
    ensures r.None? <==> forall p :: p in pkgs ==> p.id != id
  {
    if |pkgs| == 0 then None
    else if pkgs[0].id == id then Some(pkgs[0])
    else FindPackageIn(pkgs[1..], id)
  }

  function FindPackage(id: string): Option<CreditPackage> {
    FindPackageIn(CreditPackages, id)
  }

  predicate IsAgentId(id: string) {
    id in AgentIds
  }
}
