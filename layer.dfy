/**
 * The host objects the script changes in place: the in-memory point layer
 * (with its data provider folded in) and the host session, which is
 * started, receives the finished layer and is shut down.
 */
module Layer {
  import opened Mapping

  /** `QgsVectorLayer("Point?crs=epsg:4326", "Pointlayer", "memory")` and its provider. */
  class MemoryLayer {
    const name: string
    const crs: string
    var fields: seq<Field>
    var features: seq<PointFeature>

    /** Every feature carries one attribute per declared field. */
    predicate Conforms()
      reads this
    {
      forall i :: 0 <= i < |features| ==> |features[i].attributes| == |fields|
    }

    constructor (name: string, crs: string)
      ensures this.name == name && this.crs == crs
      ensures fields == [] && features == []
      ensures Conforms()
    {
      this.name := name;
      this.crs := crs;
      fields := [];
      features := [];
    }

    /** `pr.addAttributes(...)` followed by `layer.updateFields()`. */
    method AddAttributes(newFields: seq<Field>)
      modifies this
      ensures fields == old(fields) + newFields
      ensures features == old(features)
      ensures old(features) == [] ==> Conforms()
    {
      fields := fields + newFields;
    }

    /** `pr.addFeature(feature)`. */
    method AddFeature(feature: PointFeature)
      modifies this
      ensures features == old(features) + [feature]
      ensures fields == old(fields)
      ensures old(Conforms()) && |feature.attributes| == |fields| ==> Conforms()
    {
      features := features + [feature];
    }
  }

  /**
   * The `QgsApplication` session together with the project's layer
   * registry: `running` is true between `initQgis` and `exitQgis`.
   */
  class Session {
    var running: bool
    var mapLayers: seq<MemoryLayer>

    /** `qgs.initQgis()` on a fresh application with an empty project. */
    constructor ()
      ensures running && mapLayers == []
    {
      running := true;
      mapLayers := [];
    }

    /** `QgsProject.instance().addMapLayer(layer)`. */
    method AddMapLayer(layer: MemoryLayer)
      requires running
      modifies this
      ensures running && mapLayers == old(mapLayers) + [layer]
    {
      mapLayers := mapLayers + [layer];
    }

    /** `qgs.exitQgis()`. */
    method ExitQgis()
      modifies this
      ensures !running && mapLayers == old(mapLayers)
    {
      running := false;
    }
  }
}
