/** The part of the Flask application object this core touches. */
module FlaskApp {
  import opened Wrappers

  /** `app.config`: the entries read and written here, each a string or `None`. */
  class FlaskConfig {
    var entries: map<string, Option<string>>

    constructor (entries: map<string, Option<string>>)
      ensures this.entries == entries
    {
      this.entries := entries;
    }
  }
}
