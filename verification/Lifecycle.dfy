/**
 Across operations: what is uploaded can be promoted under any spelling of its version, and then resolves.
 */
module Lifecycle {
  import opened Catalog
  import opened Channels
  import opened Text
  import opened Timestamps
  import opened Uploads
  import opened Versions
  import opened Wrappers

  /** After a successful upload, a promotion of the same type and name, to a version that agrees with the
      uploaded one once trimmed and rid of one leading v, saves a row of that artifact, and the channel then
      resolves to it. */
  lemma UploadedThenPromoted(site: Site, w: World, a: Attempt, key: ChannelKey, version: string, actor: string,
                             now: Instant)
    requires Upload(site, w, a.request, a.id, a.faults).1.Ok?
    requires key.artifactType == a.request.artifactType && key.name == a.request.name
    requires DropV(TrimSpace(version)) == DropV(TrimSpace(a.request.version))
    ensures var artifact := Upload(site, w, a.request, a.id, a.faults).1.value;
            var db := Uploads.After(site, w, a).db;
            var r := Promotion(db, key, version, actor, now, NO_FAULTS);
            && r.Ok? && r.value.artifactId == artifact.id == a.id && r.value.version == artifact.key.version
            && Resolve(SaveRow(db, r.value), key) == Ok(artifact)
            && artifact.sha256 == site.digest(a.request.content)
  {
    UploadedRow(site, w, a);
    UploadOutcome(site, w, a);
    SpellingsPromoteAlike(Uploads.After(site, w, a).db, key, version, a.request.version, actor, now, NO_FAULTS);
    PromotionOutcome(Uploads.After(site, w, a).db, key, a.request.version, actor, now, NO_FAULTS);
  }

  /** Before anything of that type, name and recorded version is uploaded, no promotion of it succeeds. */
  lemma NotUploadedNotPromoted(db: Db, key: ChannelKey, version: string, actor: string, now: Instant, faults: Faults)
    requires ArtifactKey(key.artifactType, key.name, RecordedVersion(version)) !in db.artifacts
    ensures Promotion(db, key, version, actor, now, faults).Err?
  {
    PromotionOutcome(db, key, version, actor, now, faults);
  }
}
