/** The constants of src/constants/index.ts that the modelled code reads. */
module Constants {

  const EARTH_RADIUS_KM: real := 6371.0

  // HEATMAP_CONFIG
  const DEFAULT_GRID_SIZE: real := 0.001
  const DEFAULT_RADIUS: real := 100.0
  const DEFAULT_INTENSITY_THRESHOLD: real := 0.1
  const DEFAULT_MAX_POINTS: int := 1000
  const CLUSTERING_DISTANCE: real := 50.0

  // ERROR_MESSAGES
  const INTERNAL_ERROR: string := "Internal server error"
  const ROUTE_NOT_FOUND: string := "Route not found"
  const INVALID_COORDINATES: string := "Invalid coordinates provided"
  const INVALID_ROUTE_TYPE: string := "Invalid route type provided"

  // OSRM_CONFIG
  const OSRM_BASE_URL: string := "https://router.project-osrm.org/route/v1"
  const OSRM_PROFILES: map<string, string> :=
    map["driving" := "driving", "walking" := "foot", "cycling" := "cycling", "bus" := "driving"]
}
