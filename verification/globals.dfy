/** The one configuration value the ray engine uses (RadioSimulator/globals.py). */
module Globals {

  /** Width and height of the scene, in scene units. */
  const SceneSize: (real, real) := (500.0, 300.0)
}
