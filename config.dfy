/**
 * The game-engine configuration (GAME_CONFIG in front/src/game/config.js).
 * Only the integer constants that the modelled logic reads are kept.
 */
module Config {
  const WIDTH: int := 1200
  const HEIGHT: int := 500
  const PLAYER_SPEED: int := 400
  const JUMP_VELOCITY: int := -600
  const ANSWER_BOX_COUNT: int := 4
  const ANSWER_BOX_WIDTH: int := 240
  const ANSWER_BOX_GAP: int := 25
  const PLAYER_SIZE: int := 48
  const GROUND_HEIGHT: int := 40
  const PLATFORM_Y: int := 80
}
