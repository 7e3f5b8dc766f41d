/** The strings that name types, properties and their values. */
module Words {

  /** A string. Those the code compares with or writes itself have constructors of their own
      (dancex11/core/dancex11_properties.idl), every other string is a `Text`. */
  datatype Word =
    | Text(text: string)
    // names of execution parameters
    | ComponentArtifact | ComponentFactory | ImplementationType | OpenMode | HomeFactory | ExplicitHome
    // names of configuration properties
    | ComponentLocality | ComponentContainer
    // names of implementations; those of components are a `Text` with a dot in it
    | LocalityManagerService | ContainerService
    // types of instances
    | CcmHome | CcmComponent | CcmHomedComponent | CcmContainer | LocalityManagerType
}
