/** The parts of a semantic query that policies, stages and the generator read and write:
    crates/graphnight-core/src/models.rs. */
module Queries {
  import opened Results

  /** A JSON value; an object is kept as the text it serialises to, a number as its digits. */
  datatype Value =
    | Null
    | Bool(b: bool)
    | Number(digits: string)
    | String(s: string)
    | Array(items: seq<Value>)
    | Object(json: string)

  datatype FilterOperator =
    | Eq | Neq | Gt | Gte | Lt | Lte | Like | ILike | In | NotIn | IsNull | IsNotNull | Between | NotBetween
    | Intersects | Within | Contains
  {
    predicate IsSpatial() { Intersects? || Within? || Contains? }

    predicate IsMembership() { In? || NotIn? }

    predicate IsRange() { Between? || NotBetween? }

    predicate IsValueless() { IsNull? || IsNotNull? }
  }

  datatype Filter = Filter(field: string, operator: FilterOperator, value: Value, orCondition: bool)

  datatype Query = Query(
    name: Option<string>,
    sourceModel: Option<string>,
    filters: seq<Filter>,
    limit: Option<nat>,
    offset: Option<nat>,
    stageRef: Option<string>)
}
