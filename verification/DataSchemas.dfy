/** The schema that holds the final tables of an organization (core/config.py). */
module DataSchemas {
  import opened Text

  const DEFAULT_DATA_SCHEMA := "data"

  /** `get_data_schema`. */
  function DataSchema(useOrgSchema: bool, organization: string): string {
    if useOrgSchema then Lower(organization) else DEFAULT_DATA_SCHEMA
  }
}
