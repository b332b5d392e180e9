/**
 The shape primitives a rigid body owns. The world reads only the shape's
 type tag (to keep plane contacts away from the notification callback); the
 geometric parameters are carried for the collision handler, which is kept
 abstract.
 */
module Shapes {
  import opened Vectors

  datatype ShapeType = PlaneType | SphereType

  datatype Shape =
    | Plane(normal: Vec3, planeConstant: real)
    | Sphere(radius: real)
  {
    /** The tag used for collision dispatch and filtering. */
    function ShapeTypeOf(): ShapeType {
      match this
      case Plane(_, _) => PlaneType
      case Sphere(_) => SphereType
    }
  }
}
