/**
 The records the K-Means step works on.

 A record of the library is a plain object: numeric features keyed by name,
 an optional string `label` (a display tag that scaling and distance never
 touch) and, once assigned, a numeric `cluster`. `label` is kept apart from the
 numeric features; `cluster` is an ordinary numeric key, exactly as the source
 treats it.
 */
module Facts {

  datatype Option<T> = None | Some(value: T)

  /** The key of the optional display tag. */
  const Label: string := "label"

  /** The key that the assignment step sets to a centroid index. */
  const Cluster: string := "cluster"

  /** The two features the centroid update knows by name. */
  const Experience: string := "experience"
  const Salary: string := "salary"

  /** Numeric fields of a record; the `label` key lives outside them, in `tag`. */
  type Features = m: map<string, real> | "label" !in m witness map[]

  datatype Record = Record(features: Features, tag: Option<string>)

  /** True when every record carries the numeric key `k`. */
  predicate HasKey(facts: seq<Record>, k: string)
  {
    forall i | 0 <= i < |facts| :: k in facts[i].features
  }

  /** `R.pluck(k, facts)`: the `k`-column of a list of records. */
  function Column(facts: seq<Record>, k: string): (col: seq<real>)
    requires HasKey(facts, k)
    ensures |col| == |facts|
    ensures forall i | 0 <= i < |facts| :: col[i] == facts[i].features[k]
  {
    if facts == [] then [] else [facts[0].features[k]] + Column(facts[1..], k)
  }

  /** `R.omit(["cluster", "label"])`: a copy without the cluster index and the label. */
  function Omit(r: Record): (o: Record)
    ensures o.tag == None
    ensures o.features.Keys == r.features.Keys - {Cluster}
    ensures forall k | k in o.features :: o.features[k] == r.features[k]
  {
    Record(r.features - {Cluster}, None)
  }

  /** `R.map(R.omit(["cluster", "label"]))` over a list of records. */
  function OmitAll(facts: seq<Record>): (os: seq<Record>)
    ensures |os| == |facts|
    ensures forall i | 0 <= i < |facts| :: os[i] == Omit(facts[i])
  {
    if facts == [] then [] else [Omit(facts[0])] + OmitAll(facts[1..])
  }
}
