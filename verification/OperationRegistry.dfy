/** The typing table of packages/domain/services/operation_registry.py. */
module OperationRegistry {

  /** The operation names the plan schema admits. */
  datatype OpName =
    | InputUploadRaster | InputUploadVector
    | RasterClip | RasterReproject | RasterResample | RasterBandMath | RasterZonalStats
    | RasterTerrainSlope | RasterTerrainAspect | RasterHillshade | RasterMosaic
    | RasterReclassify | RasterMask | RasterRasterize
    | VectorBuffer | VectorClip | VectorIntersection | VectorDissolve | VectorReproject
    | VectorUnion | VectorErase | VectorSimplify | VectorSpatialJoin | VectorRepair
    | ArtifactExport

  /** Base types an operation can produce. */
  datatype Kind = Raster | Vector | Table | Artifact

  /** Declared types: "uploaded_file", "any", a base type, or a list of one ("raster[]"). */
  datatype DataType = UploadedFile | AnyType | One(kind: Kind) | Many(kind: Kind)

  /** Keys of a node's `inputs` dict; plans may carry names no operation knows. */
  datatype InputKey =
    | UploadIdKey | RasterKey | RastersKey | AoiKey | ZonesKey
    | VectorKey | ClipVectorKey | OverlayKey | PrimaryKey | OtherInput(name: string)

  /** Keys of a node's `outputs` dict. */
  datatype OutputKey = RasterOut | VectorOut | TableOut | ArtifactOut | OtherOutput(name: string)

  /** Parameter names the guard asks for by name. */
  datatype ParamKey = SourcePath | Expression

  datatype Port = Port(key: InputKey, dataType: DataType)

  datatype OutPort = OutPort(key: OutputKey, kind: Kind)

  datatype OperationSpec = OperationSpec(
    inputs: seq<Port>,
    output: OutPort,
    requiredParams: seq<ParamKey>)

  /** The operation name with '.' replaced by '_', as step ids carry it. */
  function Slug(op: OpName): string {
    match op
    case InputUploadRaster => "input_upload_raster"
    case InputUploadVector => "input_upload_vector"
    case RasterClip => "raster_clip"
    case RasterReproject => "raster_reproject"
    case RasterResample => "raster_resample"
    case RasterBandMath => "raster_band_math"
    case RasterZonalStats => "raster_zonal_stats"
    case RasterTerrainSlope => "raster_terrain_slope"
    case RasterTerrainAspect => "raster_terrain_aspect"
    case RasterHillshade => "raster_hillshade"
    case RasterMosaic => "raster_mosaic"
    case RasterReclassify => "raster_reclassify"
    case RasterMask => "raster_mask"
    case RasterRasterize => "raster_rasterize"
    case VectorBuffer => "vector_buffer"
    case VectorClip => "vector_clip"
    case VectorIntersection => "vector_intersection"
    case VectorDissolve => "vector_dissolve"
    case VectorReproject => "vector_reproject"
    case VectorUnion => "vector_union"
    case VectorErase => "vector_erase"
    case VectorSimplify => "vector_simplify"
    case VectorSpatialJoin => "vector_spatial_join"
    case VectorRepair => "vector_repair"
    case ArtifactExport => "artifact_export"
  }

  function InputPorts(op: OpName): seq<Port> {
    match op
    case InputUploadRaster => [Port(UploadIdKey, UploadedFile)]
    case InputUploadVector => [Port(UploadIdKey, UploadedFile)]
    case RasterClip => [Port(RasterKey, One(Raster)), Port(AoiKey, One(Vector))]
    case RasterZonalStats => [Port(RasterKey, One(Raster)), Port(ZonesKey, One(Vector))]
    case RasterMosaic => [Port(RastersKey, Many(Raster))]
    case RasterMask => [Port(RasterKey, One(Raster)), Port(VectorKey, One(Vector))]
    case RasterRasterize => [Port(VectorKey, One(Vector)), Port(RasterKey, One(Raster))]
    case VectorClip => [Port(VectorKey, One(Vector)), Port(ClipVectorKey, One(Vector))]
    case VectorIntersection | VectorUnion | VectorErase | VectorSpatialJoin =>
      [Port(VectorKey, One(Vector)), Port(OverlayKey, One(Vector))]
    case VectorBuffer | VectorDissolve | VectorReproject | VectorSimplify | VectorRepair =>
      [Port(VectorKey, One(Vector))]
    case ArtifactExport => [Port(PrimaryKey, AnyType)]
    case _ => [Port(RasterKey, One(Raster))]
  }

  /** Every operation of the table has exactly one output. */
  function OutputPort(op: OpName): OutPort {
    match op
    case RasterZonalStats => OutPort(TableOut, Table)
    case ArtifactExport => OutPort(ArtifactOut, Artifact)
    case InputUploadVector | VectorBuffer | VectorClip | VectorIntersection | VectorDissolve
       | VectorReproject | VectorUnion | VectorErase | VectorSimplify | VectorSpatialJoin
       | VectorRepair => OutPort(VectorOut, Vector)
    case _ => OutPort(RasterOut, Raster)
  }

  function RequiredParams(op: OpName): seq<ParamKey> {
    match op
    case InputUploadRaster => [SourcePath]
    case InputUploadVector => [SourcePath]
    case RasterBandMath => [Expression]
    case _ => []
  }

  /** OPERATION_SPECS[op] */
  function Spec(op: OpName): OperationSpec {
    OperationSpec(InputPorts(op), OutputPort(op), RequiredParams(op))
  }

  predicate IsUpload(op: OpName) {
    op == InputUploadRaster || op == InputUploadVector
  }

  /** The key as it stands in the dict and in output refs. */
  function OutputText(k: OutputKey): string {
    match k
    case RasterOut => "raster"
    case VectorOut => "vector"
    case TableOut => "table"
    case ArtifactOut => "artifact"
    case OtherOutput(name) => name
  }
}
