/** The parts of a deployment plan that the loader fills in and the locality manager reads. */
module DeploymentPlan {
  import opened Words

  datatype Property = Property(name: Word, value: Word)

  datatype PortKind = Facet | SimplexReceptacle

  datatype Endpoint = Endpoint(portName: string, provider: bool, kind: PortKind, instanceRef: nat)

  datatype ExternalReference = ExternalReference(location: string, portName: string, provider: bool)

  datatype Connection = Connection(
    name: string,
    internalEndpoint: seq<Endpoint>,
    externalReference: seq<ExternalReference>,
    externalEndpoint: seq<string>)

  datatype Implementation = Implementation(name: Word, execParameter: seq<Property>, artifactRef: seq<nat>)

  datatype Instance = Instance(name: string, node: string, implementationRef: nat, configProperty: seq<Property>)

  datatype Artifact = Artifact(name: string, location: string)

  datatype LocalityKind = PlanSameProcess | PlanDifferentProcess

  datatype PlanLocality = PlanLocality(kind: LocalityKind, constrainedInstanceRef: seq<nat>)

  datatype Plan = Plan(
    implementation: seq<Implementation>,
    instance: seq<Instance>,
    connection: seq<Connection>,
    artifact: seq<Artifact>,
    localityConstraint: seq<PlanLocality>)

  const EmptyPlan := Plan([], [], [], [], [])

  /** The first property that tells the type decides. */
  function GetInstanceType(props: seq<Property>): Word {
    if props == [] then Text("")
    else if props[0].name == HomeFactory then CcmHome
    else if props[0].name == ComponentFactory then CcmComponent
    else if props[0].name == ExplicitHome then CcmHomedComponent
    else if props[0].name == ImplementationType then props[0].value
    else GetInstanceType(props[1..])
  }

  /** Every reference from an instance to its implementation and from an endpoint to its instance is in range. */
  predicate InRange(plan: Plan) {
    && (forall i :: 0 <= i < |plan.instance| ==> plan.instance[i].implementationRef < |plan.implementation|)
    && (forall c, e :: 0 <= c < |plan.connection| && 0 <= e < |plan.connection[c].internalEndpoint| ==>
                         plan.connection[c].internalEndpoint[e].instanceRef < |plan.instance|)
  }

  /** The type of the i-th instance, and the empty string where a reference is out of range. */
  function TypeOf(plan: Plan, i: nat): Word {
    if i < |plan.instance| && plan.instance[i].implementationRef < |plan.implementation| then
      GetInstanceType(plan.implementation[plan.instance[i].implementationRef].execParameter)
    else Text("")
  }

  function IsExternal(conn: Connection): bool {
    |conn.externalReference| > 0 || |conn.externalEndpoint| > 0
  }

  /** The shapes of connection the loader produces: two internal endpoints of which exactly one
      provides, or one internal endpoint and one external reference. */
  predicate WellFormed(conn: Connection) {
    && conn.externalEndpoint == []
    && (|| (|conn.internalEndpoint| == 2 && conn.externalReference == []
            && conn.internalEndpoint[0].provider != conn.internalEndpoint[1].provider)
        || (|conn.internalEndpoint| == 1 && |conn.externalReference| == 1))
  }
}
